/** Socks5Bind: the life of its relay sessions over all interleavings, and the bind itself. */
module Socks5Bind {
  import opened Bytes
  import opened Socks5
  import opened Socks5Udp

  // ---- the locked regions ----

  /** The fields under the bind's mutex, for any representation of a session. */
  datatype Slot<+T> = Slot(open: bool, session: Option<T>)

  /** The second locked region of Open: whether the new session was stored. */
  function FinishOpen<T>(b: Slot<T>, session: T): (Slot<T>, bool) {
    if b.open then (b.(session := Some(session)), true) else (b, false)
  }

  function TakeForClose<T>(b: Slot<T>): Slot<T> {
    Slot(false, None)
  }

  function CurrentSession<T>(b: Slot<T>): Option<T> {
    if b.open then b.session else None
  }

  // ---- all interleavings ----

  datatype Pc =
    | Associating                // Open, unlocked, before UDPAssociate returns
    | AssociationFailed          // Open, before open = false
    | Associated(i: nat)         // Open, before its second locked region
    | Closing(i: nat)            // Close, after its locked region
    | Using(i: nat)              // Send or receive with the session it found

  /** closes is history: how often each session that was ever associated has been closed. */
  datatype Sys = Sys(b: Slot<nat>, threads: map<nat, Pc>, closes: seq<nat>)

  const Start := Sys(Slot(false, None), map[], [])

  datatype Event =
    | CallOpen(t: nat)
    | AssociateReturns(t: nat, ok: bool)
    | CallClose(t: nat)
    | CallUse(t: nat)
    | Step(t: nat)

  predicate IsOpening(pc: Pc) {
    pc.Associating? || pc.AssociationFailed? || pc.Associated?
  }

  predicate OpenInFlight(s: Sys) {
    exists t :: t in s.threads && IsOpening(s.threads[t])
  }

  function CloseSession(closes: seq<nat>, i: nat): seq<nat> {
    if i < |closes| then closes[i := closes[i] + 1] else closes
  }

  function Goto(s: Sys, t: nat, pc: Pc): Sys {
    s.(threads := s.threads[t := pc])
  }

  function Return(s: Sys, t: nat): Sys {
    s.(threads := s.threads - {t})
  }

  /** At most one Open is in flight; Close, Send and receive come at any time. */
  function Next(s: Sys, e: Event): Option<Sys> {
    match e
    case CallOpen(t) =>
      if s.b.open then Some(s)  // ErrBindAlreadyOpen
      else if t in s.threads || OpenInFlight(s) then None
      else Some(Goto(s.(b := s.b.(open := true)), t, Associating))
    case AssociateReturns(t, ok) =>
      if t !in s.threads || !s.threads[t].Associating? then None
      else if ok then Some(Goto(s.(closes := s.closes + [0]), t, Associated(|s.closes|)))
      else Some(Goto(s, t, AssociationFailed))
    case CallClose(t) =>
      if t in s.threads then None
      else
        var s' := s.(b := TakeForClose(s.b));
        Some(if s.b.session.None? then s' else Goto(s', t, Closing(s.b.session.value)))
    case CallUse(t) =>
      if t in s.threads then None
      else
        var session := CurrentSession(s.b);
        Some(if session.None? then s else Goto(s, t, Using(session.value)))
    case Step(t) =>
      if t !in s.threads then None
      else
        match s.threads[t]
        case Associating => None
        case AssociationFailed => Some(Return(s.(b := s.b.(open := false)), t))
        case Associated(i) =>
          var (b', stored) := FinishOpen(s.b, i);
          Some(Return(s.(b := b', closes := if stored then s.closes else CloseSession(s.closes, i)), t))
        case Closing(i) => Some(Return(s.(closes := CloseSession(s.closes, i)), t))
        case Using(_) => Some(Return(s, t))
  }

  function Run(s: Sys, es: seq<Event>): Option<Sys>
    decreases |es|
  {
    if es == [] then Some(s)
    else
      var next := Next(s, es[0]);
      if next.None? then None else Run(next.value, es[1..])
  }

  /** A thread in sole charge of closing session i. */
  predicate Owes(pc: Pc, i: nat) {
    (pc.Associated? || pc.Closing?) && pc.i == i
  }

  predicate Owed(threads: map<nat, Pc>, i: nat) {
    exists t :: t in threads && Owes(threads[t], i)
  }

  ghost predicate Charges(s: Sys) {
    && (forall t :: t in s.threads && (s.threads[t].Associated? || s.threads[t].Closing?) ==>
          var i := s.threads[t].i;
          i < |s.closes| && s.closes[i] == 0 && s.b.session != Some(i))
    && (forall t, u :: t in s.threads && u in s.threads && t != u ==> !SameCharge(s.threads[t], s.threads[u]))
  }

  predicate SameCharge(pc: Pc, pc': Pc) {
    (pc.Associated? || pc.Closing?) && Owes(pc', pc.i)
  }

  /** Closed once, or not yet and then stored or in some thread's charge. */
  ghost predicate Accounted(s: Sys, i: nat)
    requires i < |s.closes|
  {
    s.closes[i] == 1 || (s.closes[i] == 0 && (s.b.session == Some(i) || Owed(s.threads, i)))
  }

  ghost predicate Opens(s: Sys) {
    && (s.b.session.Some? ==> s.b.open && s.b.session.value < |s.closes| && s.closes[s.b.session.value] == 0)
    && (forall t :: t in s.threads && IsOpening(s.threads[t]) ==> s.b.session.None?)
    && (forall t, u ::
          t in s.threads && u in s.threads && t != u ==> !(IsOpening(s.threads[t]) && IsOpening(s.threads[u])))
  }

  ghost predicate Inv(s: Sys) {
    && Opens(s)
    && Charges(s)
    && forall i :: 0 <= i < |s.closes| ==> Accounted(s, i)
  }

  lemma OwedAfterGoto(threads: map<nat, Pc>, t: nat, pc: Pc, i: nat)
    requires Owes(pc, i) || (Owed(threads, i) && (t in threads ==> !Owes(threads[t], i)))
    ensures Owed(threads[t := pc], i)
  {
    if Owes(pc, i) {
      assert threads[t := pc][t] == pc;
    } else {
      var u :| u in threads && Owes(threads[u], i);
      assert threads[t := pc][u] == threads[u];
    }
  }

  lemma OwedAfterReturn(threads: map<nat, Pc>, t: nat, i: nat)
    requires Owed(threads, i) && t in threads && !Owes(threads[t], i)
    ensures Owed(threads - {t}, i)
  {
    var u :| u in threads && Owes(threads[u], i);
    assert (threads - {t})[u] == threads[u];
  }

  lemma KeepsOnCallOpen(s: Sys, t: nat)
    requires Inv(s) && !s.b.open && t !in s.threads && !OpenInFlight(s)
    ensures Inv(Next(s, CallOpen(t)).value)
  {
    var s' := Next(s, CallOpen(t)).value;
    forall i | 0 <= i < |s'.closes|
      ensures Accounted(s', i)
    {
      assert Accounted(s, i);
      if s.closes[i] == 0 {
        OwedAfterGoto(s.threads, t, Associating, i);
      }
    }
  }

  lemma KeepsOnAssociate(s: Sys, t: nat, ok: bool)
    requires Inv(s) && t in s.threads && s.threads[t].Associating?
    ensures Inv(Next(s, AssociateReturns(t, ok)).value)
  {
    var s' := Next(s, AssociateReturns(t, ok)).value;
    forall i | 0 <= i < |s'.closes|
      ensures Accounted(s', i)
    {
      if i < |s.closes| {
        assert Accounted(s, i);
        if s.closes[i] == 0 && Owed(s.threads, i) {
          OwedAfterGoto(s.threads, t, s'.threads[t], i);
        }
      } else {
        OwedAfterGoto(s.threads, t, s'.threads[t], i);
      }
    }
  }

  lemma KeepsOnCallClose(s: Sys, t: nat)
    requires Inv(s) && t !in s.threads
    ensures Inv(Next(s, CallClose(t)).value)
  {
    var s' := Next(s, CallClose(t)).value;
    forall i | 0 <= i < |s'.closes|
      ensures Accounted(s', i)
    {
      assert Accounted(s, i);
      if s.closes[i] == 0 && s.b.session.Some? {
        OwedAfterGoto(s.threads, t, Closing(s.b.session.value), i);
      }
    }
  }

  lemma KeepsOnCallUse(s: Sys, t: nat)
    requires Inv(s) && t !in s.threads
    ensures Inv(Next(s, CallUse(t)).value)
  {
    var s' := Next(s, CallUse(t)).value;
    if CurrentSession(s.b).Some? {
      forall i | 0 <= i < |s'.closes|
        ensures Accounted(s', i)
      {
        assert Accounted(s, i);
        if s.closes[i] == 0 && Owed(s.threads, i) {
          OwedAfterGoto(s.threads, t, s'.threads[t], i);
        }
      }
    }
  }

  lemma KeepsOnStep(s: Sys, t: nat)
    requires Inv(s) && t in s.threads && !s.threads[t].Associating?
    ensures Inv(Next(s, Step(t)).value)
  {
    var s' := Next(s, Step(t)).value;
    assert forall u :: u in s'.threads ==> u != t && u in s.threads && s'.threads[u] == s.threads[u];
    forall i | 0 <= i < |s'.closes|
      ensures Accounted(s', i)
    {
      assert Accounted(s, i);
      if s.closes[i] == 0 && Owed(s.threads, i) && !Owes(s.threads[t], i) {
        OwedAfterReturn(s.threads, t, i);
      }
    }
    forall u | u in s'.threads
      ensures !SameCharge(s.threads[t], s.threads[u]) && !(IsOpening(s.threads[t]) && IsOpening(s.threads[u]))
    {
    }
  }

  lemma NextKeepsInv(s: Sys, e: Event)
    requires Inv(s) && Next(s, e).Some?
    ensures Inv(Next(s, e).value)
  {
    match e
    case CallOpen(t) => if !s.b.open { KeepsOnCallOpen(s, t); }
    case AssociateReturns(t, ok) => KeepsOnAssociate(s, t, ok);
    case CallClose(t) => KeepsOnCallClose(s, t);
    case CallUse(t) => KeepsOnCallUse(s, t);
    case Step(t) => KeepsOnStep(s, t);
  }

  lemma {:induction false} RunKeepsInv(s: Sys, es: seq<Event>)
    requires Inv(s) && Run(s, es).Some?
    ensures Inv(Run(s, es).value)
    decreases |es|
  {
    if es != [] {
      NextKeepsInv(s, es[0]);
      RunKeepsInv(Next(s, es[0]).value, es[1..]);
    }
  }

  /**
   Session conservation: in every reachable state a stored session means the bind is open, and
   each session ever associated is in exactly one place: stored and not closed, in the charge of
   exactly one call and not closed, or closed exactly once.
   */
  lemma SessionsConserved(es: seq<Event>, i: nat)
    requires Run(Start, es).Some? && i < |Run(Start, es).value.closes|
    ensures var s := Run(Start, es).value;
            && (s.b.session.Some? ==> s.b.open)
            && s.closes[i] <= 1
            && (s.closes[i] == 0 <==> s.b.session == Some(i) || Owed(s.threads, i))
            && !(s.b.session == Some(i) && Owed(s.threads, i))
            && (forall t, u ::
                  t in s.threads && u in s.threads && Owes(s.threads[t], i) && Owes(s.threads[u], i) ==> t == u)
  {
    RunKeepsInv(Start, es);
    assert Accounted(Run(Start, es).value, i);
  }

  /** Once every call has returned, a session is stored or has been closed exactly once. */
  lemma QuietSessions(es: seq<Event>, i: nat)
    requires Run(Start, es).Some? && Run(Start, es).value.threads == map[]
    requires i < |Run(Start, es).value.closes|
    ensures var s := Run(Start, es).value;
            s.closes[i] == if s.b.session == Some(i) then 0 else 1
  {
    SessionsConserved(es, i);
  }

  // ---- from Open to Close ----

  /** A call of Open that finds the bind not open. */
  predicate OpensNow(s: Sys, e: Event) {
    e.CallOpen? && !s.b.open
  }

  predicate NeverOpens(s: Sys, es: seq<Event>)
    requires Run(s, es).Some?
    decreases |es|
  {
    es != [] ==> !OpensNow(s, es[0]) && NeverOpens(Next(s, es[0]).value, es[1..])
  }

  lemma {:induction false} StaysClosed(s: Sys, es: seq<Event>)
    requires !s.b.open && s.b.session.None? && Run(s, es).Some? && NeverOpens(s, es)
    ensures !Run(s, es).value.b.open && Run(s, es).value.b.session.None?
    decreases |es|
  {
    if es != [] {
      StaysClosed(Next(s, es[0]).value, es[1..]);
    }
  }

  /** After Close the bind is not open and has no session until the next Open, which is then accepted. */
  lemma ClosedUntilOpened(s: Sys, t: nat, es: seq<Event>)
    requires Next(s, CallClose(t)).Some?
    requires Run(Next(s, CallClose(t)).value, es).Some? && NeverOpens(Next(s, CallClose(t)).value, es)
    ensures var s' := Run(Next(s, CallClose(t)).value, es).value;
            && !s'.b.open && s'.b.session.None?
            && forall u :: u !in s'.threads && !OpenInFlight(s') ==>
                 Next(s', CallOpen(u)).Some? && Next(s', CallOpen(u)).value.b.open
  {
    StaysClosed(Next(s, CallClose(t)).value, es);
  }

  predicate NeverCloses(es: seq<Event>) {
    forall i :: 0 <= i < |es| ==> !es[i].CallClose?
  }

  /** A stored session stays, and the bind open, until Close. */
  lemma {:induction false} StoredUntilClosed(s: Sys, es: seq<Event>, i: nat)
    requires Inv(s) && s.b.session == Some(i) && Run(s, es).Some? && NeverCloses(es)
    ensures Run(s, es).value.b == Slot(true, Some(i))
    decreases |es|
  {
    if es != [] {
      var s' := Next(s, es[0]).value;
      assert s'.b == Slot(true, Some(i));
      NextKeepsInv(s, es[0]);
      StoredUntilClosed(s', es[1..], i);
    }
  }

  /** An Open whose association succeeds stores the new session, unless Close has come: then it closes it. */
  lemma OpenStores(s: Sys, t: nat)
    requires Inv(s) && t in s.threads && s.threads[t].Associating?
    ensures var i, end := |s.closes|, Run(s, [AssociateReturns(t, true), Step(t)]);
            && end.Some? && t !in end.value.threads
            && (s.b.open ==> end.value.b == Slot(true, Some(i)) && end.value.closes == s.closes + [0])
            && (!s.b.open ==> end.value.b == Slot(false, None) && end.value.closes == s.closes + [1])
  {
    var es := [AssociateReturns(t, true), Step(t)];
    var s1 := Next(s, es[0]).value;
    assert es[1..] == [Step(t)] && es[1..][1..] == [];
    assert Run(s, es) == Run(s1, es[1..]) == Next(s1, Step(t));
    assert (s.closes + [0])[|s.closes| := 1] == s.closes + [1];
  }

  /** An Open whose association fails ends with the bind not open and nothing closed. */
  lemma OpenReverts(s: Sys, t: nat)
    requires Inv(s) && t in s.threads && s.threads[t].Associating?
    ensures var end := Run(s, [AssociateReturns(t, false), Step(t)]);
            end.Some? && t !in end.value.threads && end.value.b == Slot(false, None) && end.value.closes == s.closes
  {
    var es := [AssociateReturns(t, false), Step(t)];
    var s1 := Next(s, es[0]).value;
    assert es[1..] == [Step(t)] && es[1..][1..] == [];
    assert Run(s, es) == Run(s1, es[1..]) == Next(s1, Step(t));
  }

  /** Send and receive have a session to use exactly if one is stored, and then that one. */
  lemma UsesTheStored(s: Sys, t: nat, i: nat)
    requires Inv(s) && t !in s.threads
    ensures var next := Next(s, CallUse(t));
            next.Some? && (t in next.value.threads && next.value.threads[t] == Using(i) <==> s.b.session == Some(i))
  {
  }

  /** Every call can go on whatever the others do. */
  lemma NobodyBlocks(s: Sys, t: nat)
    requires t in s.threads
    ensures exists e :: (e == Step(t) || e == AssociateReturns(t, true)) && Next(s, e).Some?
  {
    var e := if s.threads[t].Associating? then AssociateReturns(t, true) else Step(t);
    assert Next(s, e).Some?;
  }

  // ---- the bind itself, for calls that do not overlap ----

  datatype OpenResult = Opened | AlreadyOpen | OpenFailed | ClosedMeanwhile

  datatype ReceiveResult = Packet(n: nat, ep: Endpoint) | Failed(e: UdpError) | Closed

  datatype SendResult = Sent | SendFailed(r: WriteResult) | SendClosed

  class Socks5Bind {
    var open: bool
    var session: Socks5UDPSession?

    ghost function View(): Slot<Socks5UDPSession>
      reads this
    {
      if session == null then Slot(open, None)
      else var current: Socks5UDPSession := session; Slot(open, Some(current))
    }

    ghost predicate Valid()
      reads this, session
    {
      session != null ==> open && session.readBuf.Length == SCRATCH && session.closes == 0
    }

    constructor ()
      ensures Valid() && View() == Slot(false, None)
    {
      open, session := false, null;
    }

    /** associate is what UDPAssociate returns, and closing says whether Close runs before it does. */
    method Open(associate: Option<Socks5UDPSession>, closing: bool) returns (r: OpenResult)
      requires Valid()
      requires associate.Some? ==> associate.value.readBuf.Length == SCRATCH && associate.value.closes == 0
      modifies this, if associate.Some? then {associate.value} else {}
      ensures Valid()
      ensures r.AlreadyOpen? <==> old(open)
      ensures r.AlreadyOpen? ==> open && session == old(session)
      ensures r.Opened? ==> open && associate.Some? && session == associate.value
      ensures r.OpenFailed? || r.ClosedMeanwhile? ==> !open && session == null
      ensures r.OpenFailed? <==> !old(open) && associate.None?
      ensures r.OpenFailed? ==> View() == Slot(false, None)
      ensures r.ClosedMeanwhile? <==> !old(open) && associate.Some? && closing
      ensures !old(open) && associate.Some? ==>
                (View(), r.Opened?) == FinishOpen(Slot(!closing, None), associate.value)
      ensures associate.Some? ==> associate.value.closes == if r.ClosedMeanwhile? then 1 else 0
    {
      if open {
        return AlreadyOpen;
      }
      open := true;
      // unlocked
      if closing {
        Close();
      }
      if associate.None? {
        open := false;
        return OpenFailed;
      }
      // second locked region
      if !open {
        associate.value.Close();
        return ClosedMeanwhile;
      }
      session := associate.value;
      return Opened;
    }

    /** The bind ends closed, and the session it held has been closed, once. */
    method Close()
      requires Valid()
      modifies this, session
      ensures Valid() && View() == TakeForClose(old(View()))
      ensures !open && session == null
      ensures old(session) != null ==> old(session).closes == 1
    {
      var closing := session;
      open, session := false, null;
      if closing != null {
        closing.Close();
      }
    }

    /** The endpoint reported is the one the datagram names. */
    method Receive(text: IpText, incoming: Option<seq<byte>>, buf: array<byte>) returns (r: ReceiveResult)
      requires Valid() && (session != null ==> buf != session.readBuf)
      modifies buf, if session == null then {} else {session.readBuf}
      ensures View() == old(View())
      ensures r.Closed? <==> !open || session == null
      ensures r.Packet? ==>
                && incoming.Some?
                && var u := ReadResult(text, incoming.value, buf.Length);
                   u.From? && r == Packet(|u.payload|, EndpointOf(text, u.ip, u.port)) && u.payload <= buf[..]
      ensures r.Failed? ==>
                && buf[..] == old(buf[..])
                && Rejected(r.e) ==
                     match incoming case None => Rejected(ReadFailed) case Some(d) => ReadResult(text, d, buf.Length)
    {
      if !open || session == null {
        return Closed;
      }
      var u := session.ReadFrom(text, incoming, buf);
      match u {
        case Rejected(e) => return Failed(e);
        case From(ip, port, payload) => return Packet(|payload|, EndpointOf(text, ip, port));
      }
    }

    /** Every payload before the first failure is handed to the relay, wrapped for the endpoint. */
    method Send(text: IpText, bufs: seq<seq<byte>>, ep: Endpoint, answers: nat -> WriteAnswer)
      returns (r: SendResult, packets: seq<seq<byte>>)
      requires Valid() && ep.port < 0x10000
      ensures r.SendClosed? <==> !open || session == null
      ensures r.SendClosed? ==> packets == []
      ensures |packets| <= |bufs|
      ensures r.Sent? ==> |packets| == |bufs|
      ensures r.Sent? ==> forall i :: 0 <= i < |bufs| ==> answers(i).Wrote? && |packets[i]| <= answers(i).n
      ensures r.SendFailed? && r.r.NameTooLong? ==> packets == [] && HostBytes(text, ep.host).None?
      ensures r.SendFailed? && !r.r.NameTooLong? ==>
                && packets != []
                && var last := |packets| - 1;
                   answers(last).WriteFailed? || answers(last).n < |packets[last]|
      ensures forall i :: 0 <= i < |packets| ==> Wrap(text, ep.host, ep.port, bufs[i]) == Some(packets[i])
    {
      packets := [];
      if !open || session == null {
        return SendClosed, packets;
      }
      for i := 0 to |bufs|
        invariant |packets| == i && (0 < i ==> HostBytes(text, ep.host).Some?)
        invariant forall j :: 0 <= j < i ==> answers(j).Wrote? && |packets[j]| <= answers(j).n
        invariant forall j :: 0 <= j < i ==> Wrap(text, ep.host, ep.port, bufs[j]) == Some(packets[j])
      {
        var w, packet := session.WriteToHost(text, bufs[i], ep.host, ep.port, answers(i));
        if packet.Some? {
          packets := packets + [packet.value];
        }
        if !w.Written? {
          return SendFailed(w), packets;
        }
      }
      return Sent, packets;
    }
  }
}
