/**
 Calls on a bind that do not overlap, as functions of the bind and of a script saying which of
 the coming writes and dials fail.
 */
module TcpSequential {
  import opened Bytes
  import opened Framing
  import opened TcpProtocol

  /**
   One write or dial of the script. A failed write leaves up to k bytes on the connection, and
   errClosed says whether the error of a failed dial is net.ErrClosed.
   */
  datatype Io = Succeeds | Fails(k: nat, errClosed: bool)

  /** An exhausted script lets everything succeed. */
  function First(script: seq<Io>): Io {
    if script == [] then Succeeds else script[0]
  }

  function Rest(script: seq<Io>): seq<Io> {
    if script == [] then [] else script[1..]
  }

  predicate IsErrClosed(io: Io) {
    io.Fails? && io.errClosed
  }

  predicate NeverErrClosed(script: seq<Io>) {
    forall i :: 0 <= i < |script| ==> !IsErrClosed(script[i])
  }

  function Faults(script: seq<Io>): nat {
    if script == [] then 0 else (if script[0].Fails? then 1 else 0) + Faults(script[1..])
  }

  predicate ConnExists(b: Bind) {
    b.conn.Some? ==> b.conn.value < |b.conns|
  }

  /** What the bind keeps between calls while it is open. */
  ghost predicate Live(b: Bind) {
    && b.open
    && (b.conn.Some? ==> b.conn.value < |b.conns| && !b.conns[b.conn.value].closed)
  }

  // ---- dial ----

  function DialCall(b: Bind, staleGen: nat, script: seq<Io>): (r: (Bind, DialResult, seq<Io>))
    requires ConnExists(b)
    ensures ConnExists(r.0) && r.0.open == b.open
    ensures !b.open ==> r == (b, DialClosed, script)
    ensures b.open && staleGen != 0 && staleGen != b.connGen ==> r == (b, DialOk, script)
    ensures b.open && (staleGen == 0 || staleGen == b.connGen) ==>
              && r.2 == Rest(script)
              && (r.1.DialOk? <==> First(script).Succeeds?)
              && (r.1.DialClosed? <==> IsErrClosed(First(script)))
    ensures b.open && !r.1.DialOk? ==> r.0.conn.None? && r.0.connGen == b.connGen && |r.0.conns| == |b.conns|
    ensures r.1.DialOk? && (staleGen == 0 || staleGen == b.connGen) ==>
              && r.0.conn == Some(|b.conns|) && r.0.conns[|b.conns|] == Fresh && |r.0.conns| == |b.conns| + 1
              && r.0.installed == b.installed + [|b.conns|]
              && (b.conn.Some? ==> r.0.conns[b.conn.value].closed)
  {
    var (b1, v) := DialEnter(b, staleGen);
    if v.Refused? then (b, DialClosed, script)
    else if v.AlreadyReconnected? then (b, DialOk, script)
    else if First(script).Fails? then (b1, if First(script).errClosed then DialClosed else DialFailed, Rest(script))
    else (DialFinish(Dialed(b1), |b1.conns|).0, DialOk, Rest(script))
  }

  // ---- sendOne ----

  /** What Write does to a connection: a closed one never takes a frame. */
  function WriteResult(conn: Conn, p: Datagram, io: Io): (w: WriteOutcome)
    ensures match w case Wrote => !conn.closed case Cut(k) => k < |Frame(p)|
  {
    match io
    case Succeeds => if conn.closed then Cut(0) else Wrote
    case Fails(k, _) => Cut(Min(k, |Frame(p)| - 1))
  }

  datatype SendResult = Sent | SendClosed | GaveUp

  /** sendOne from the head of its loop. */
  function SendCall(b: Bind, p: Datagram, attempt: nat, script: seq<Io>): (Bind, SendResult, seq<Io>)
    requires ConnExists(b)
    decreases 3 - attempt
  {
    if attempt >= 3 then (b, GaveUp, script)
    else if !b.open then (b, SendClosed, script)
    else if b.conn.None? then
      var (b1, r, rest) := DialCall(b, 0, script);
      if r.DialClosed? then (b1, SendClosed, rest) else SendCall(b1, p, attempt + 1, rest)
    else
      var w := WriteResult(b.conns[b.conn.value], p, First(script));
      var b1 := WriteFrame(b, b.conn.value, p, w);
      if w.Wrote? then (b1, Sent, Rest(script))
      else
        var (b2, _, rest) := DialCall(b1, b.connGen, Rest(script));
        SendCall(b2, p, attempt + 1, rest)
  }

  // ---- the fault budget of sendOne ----

  /** Failures a send can take with attempts still to go, by whether it starts connected. */
  function Budget(connected: bool, attempt: nat): int {
    3 - attempt - if connected then 1 else 2
  }

  /** Failures among the writes and dials that a send has used up. */
  function FaultsMet(b: Bind, p: Datagram, attempt: nat, script: seq<Io>): int
    requires ConnExists(b)
  {
    Faults(script) - Faults(SendCall(b, p, attempt, script).2)
  }

  lemma FaultsOfRest(script: seq<Io>)
    ensures Faults(script) == (if First(script).Fails? then 1 else 0) + Faults(Rest(script))
  {
  }

  lemma {:induction false} FaultsMetIsCount(b: Bind, p: Datagram, attempt: nat, script: seq<Io>)
    requires ConnExists(b)
    ensures 0 <= FaultsMet(b, p, attempt, script)
    decreases 3 - attempt
  {
    FaultsOfRest(script);
    FaultsOfRest(Rest(script));
    if attempt < 3 && b.open {
      if b.conn.None? {
        var (b1, r, rest) := DialCall(b, 0, script);
        if !r.DialClosed? {
          FaultsMetIsCount(b1, p, attempt + 1, rest);
        }
      } else {
        var w := WriteResult(b.conns[b.conn.value], p, First(script));
        var (b2, _, rest) := DialCall(WriteFrame(b, b.conn.value, p, w), b.connGen, Rest(script));
        FaultsMetIsCount(b2, p, attempt + 1, rest);
      }
    }
  }

  /**
   Starting connected, sendOne survives any two failures of writes and dials; starting
   disconnected, any one, unless it is the dialer's own net.ErrClosed, which is not tried again.
   */
  lemma {:induction false} SendSurvives(b: Bind, p: Datagram, attempt: nat, script: seq<Io>)
    requires Live(b)
    requires FaultsMet(b, p, attempt, script) <= Budget(b.conn.Some?, attempt)
    ensures var r := SendCall(b, p, attempt, script).1;
            if b.conn.None? && IsErrClosed(First(script)) then r.SendClosed? else r.Sent?
    decreases 3 - attempt
  {
    FaultsMetIsCount(b, p, attempt, script);
    FaultsOfRest(script);
    FaultsOfRest(Rest(script));
    if b.conn.None? {
      var (b1, r, rest) := DialCall(b, 0, script);
      if !r.DialClosed? {
        FaultsMetIsCount(b1, p, attempt + 1, rest);
        FaultsOfRest(rest);
        SendSurvives(b1, p, attempt + 1, rest);
      }
    } else {
      var w := WriteResult(b.conns[b.conn.value], p, First(script));
      if w.Cut? {
        var (b2, _, rest) := DialCall(WriteFrame(b, b.conn.value, p, w), b.connGen, Rest(script));
        FaultsMetIsCount(b2, p, attempt + 1, rest);
        FaultsOfRest(rest);
        SendSurvives(b2, p, attempt + 1, rest);
      }
    }
  }

  /** The script alone tells whether a sendOne with so many turns left is ended by the dialer's net.ErrClosed. */
  predicate DialerEndsSend(connected: bool, turns: nat, script: seq<Io>)
    decreases turns
  {
    turns != 0 &&
    var io, rest := First(script), Rest(script);
    if connected then io.Fails? && DialerEndsSend(First(rest).Succeeds?, turns - 1, Rest(rest))
    else IsErrClosed(io) || DialerEndsSend(io.Succeeds?, turns - 1, rest)
  }

  /** open stays as it was, and ErrClosed means a bind that is not open or a dialer that said so. */
  lemma {:induction false} SendKeepsOpen(b: Bind, p: Datagram, attempt: nat, script: seq<Io>)
    requires ConnExists(b) && attempt < 3
    ensures var (b', r, _) := SendCall(b, p, attempt, script);
            && b'.open == b.open
            && (!b.open ==> r.SendClosed?)
            && (Live(b) ==> (r.SendClosed? <==> DialerEndsSend(b.conn.Some?, 3 - attempt, script)))
    decreases 3 - attempt
  {
    if b.open {
      if b.conn.None? {
        var (b1, r, rest) := DialCall(b, 0, script);
        if !r.DialClosed? && attempt < 2 {
          SendKeepsOpen(b1, p, attempt + 1, rest);
        }
      } else {
        var w := WriteResult(b.conns[b.conn.value], p, First(script));
        var (b2, _, rest) := DialCall(WriteFrame(b, b.conn.value, p, w), b.connGen, Rest(script));
        if attempt < 2 {
          SendKeepsOpen(b2, p, attempt + 1, rest);
        }
      }
    }
  }

  lemma RestNeverErrClosed(script: seq<Io>)
    requires NeverErrClosed(script)
    ensures !IsErrClosed(First(script)) && NeverErrClosed(Rest(script))
  {
  }

  lemma {:induction false} NeverEndsSend(connected: bool, turns: nat, script: seq<Io>)
    requires NeverErrClosed(script)
    ensures !DialerEndsSend(connected, turns, script)
    decreases turns
  {
    RestNeverErrClosed(script);
    RestNeverErrClosed(Rest(script));
    if turns != 0 {
      NeverEndsSend(First(Rest(script)).Succeeds?, turns - 1, Rest(Rest(script)));
      NeverEndsSend(First(script).Succeeds?, turns - 1, Rest(script));
    }
  }

  /** What a sendOne leaves of such a script is one too. */
  lemma {:induction false} SendLeavesNeverErrClosed(b: Bind, p: Datagram, attempt: nat, script: seq<Io>)
    requires ConnExists(b) && NeverErrClosed(script)
    ensures NeverErrClosed(SendCall(b, p, attempt, script).2)
    decreases 3 - attempt
  {
    RestNeverErrClosed(script);
    RestNeverErrClosed(Rest(script));
    if attempt < 3 && b.open {
      if b.conn.None? {
        var (b1, _, rest) := DialCall(b, 0, script);
        SendLeavesNeverErrClosed(b1, p, attempt + 1, rest);
      } else {
        var w := WriteResult(b.conns[b.conn.value], p, First(script));
        var (b2, _, rest) := DialCall(WriteFrame(b, b.conn.value, p, w), b.connGen, Rest(script));
        SendLeavesNeverErrClosed(b2, p, attempt + 1, rest);
      }
    }
  }

  /** What a whole sendOne gives on a bind as it is between calls, by its script. */
  lemma SendOutcome(b: Bind, p: Datagram, script: seq<Io>)
    requires ConnExists(b) && (b.open ==> Live(b))
    ensures var (b', r, rest) := SendCall(b, p, 0, script);
            && b'.open == b.open
            && (r.SendClosed? <==> !b.open || DialerEndsSend(b.conn.Some?, 3, script))
            && (b.open && Faults(script) - Faults(rest) <= (if b.conn.Some? then 2 else 1) ==>
                  if b.conn.None? && IsErrClosed(First(script)) then r.SendClosed? else r.Sent?)
  {
    SendKeepsOpen(b, p, 0, script);
    if b.open && FaultsMet(b, p, 0, script) <= Budget(b.conn.Some?, 0) {
      SendSurvives(b, p, 0, script);
    }
  }

  /** A dialer that never answers ErrClosed leaves that answer to a bind that is not open. */
  lemma SendEndsBy(b: Bind, p: Datagram, script: seq<Io>)
    requires ConnExists(b) && (b.open ==> Live(b))
    ensures var (_, r, rest) := SendCall(b, p, 0, script);
            NeverErrClosed(script) ==> NeverErrClosed(rest) && (r.SendClosed? <==> !b.open)
  {
    if NeverErrClosed(script) {
      SendKeepsOpen(b, p, 0, script);
      SendLeavesNeverErrClosed(b, p, 0, script);
      NeverEndsSend(b.conn.Some?, 3, script);
    }
  }

  /** One failure more can be too many, whatever the bind and the datagram. */
  lemma BudgetIsTight(b: Bind, p: Datagram)
    requires Live(b)
    ensures exists script ::
              && FaultsMet(b, p, 0, script) == Budget(b.conn.Some?, 0) + 1
              && SendCall(b, p, 0, script).1.GaveUp?
  {
    if b.conn.Some? {
      var script := [Fails(0, false), Succeeds, Fails(0, false), Fails(0, false), Succeeds];
      assert Faults(script) == 3;
      var b1 := WriteFrame(b, b.conn.value, p, Cut(0));
      var b2 := DialCall(b1, b.connGen, script[1..]).0;
      var b3 := WriteFrame(b2, b2.conn.value, p, Cut(0));
      var b4 := DialCall(b3, b2.connGen, script[3..]).0;
      assert SendCall(b4, p, 2, script[4..]).1.GaveUp? && SendCall(b4, p, 2, script[4..]).2 == [];
      assert SendCall(b2, p, 1, script[2..]) == SendCall(b4, p, 2, script[4..]);
      assert SendCall(b, p, 0, script) == SendCall(b2, p, 1, script[2..]);
      assert FaultsMet(b, p, 0, script) == 3;
    } else {
      var script := [Fails(0, false), Succeeds, Fails(0, false), Succeeds];
      assert Faults(script) == 2;
      var b1 := DialCall(b, 0, script).0;
      var b2 := DialCall(b1, 0, script[1..]).0;
      assert SendCall(b2, p, 2, script[2..]).1.GaveUp? && SendCall(b2, p, 2, script[2..]).2 == [];
      assert SendCall(b1, p, 1, script[1..]) == SendCall(b2, p, 2, script[2..]);
      assert SendCall(b, p, 0, script) == SendCall(b1, p, 1, script[1..]);
      assert FaultsMet(b, p, 0, script) == 2;
    }
  }

  // ---- Open and receive ----

  datatype OpenResult = Opened | AlreadyOpen | OpenFailed

  function OpenCall(b: Bind, script: seq<Io>): (Bind, OpenResult, seq<Io>)
    requires ConnExists(b)
  {
    if b.open then (b, AlreadyOpen, script)
    else
      var (b1, r, rest) := DialCall(b.(open := true), b.connGen, script);
      if r.DialOk? then (b1, Opened, rest) else (b1.(open := false), OpenFailed, rest)
  }

  /** receive makes sure there is a connection to read from. */
  function ReceiveConnects(b: Bind, script: seq<Io>): (r: (Bind, DialResult, seq<Io>))
    requires ConnExists(b)
    ensures ConnExists(r.0) && r.0.open == b.open
    ensures r.1.DialOk? ==> r.0.conn.Some?
    ensures !b.open ==> r.1.DialClosed? && r.0 == b
    ensures Live(b) ==> Live(r.0)
  {
    if !b.open then (b, DialClosed, script)
    else if b.conn.Some? then (b, DialOk, script)
    else DialCall(b, 0, script)
  }

  /** The bind after a call of receive, by how the reading went, and what is left of the script. */
  function ReceiveCall(b: Bind, readOk: bool, script: seq<Io>): (Bind, seq<Io>)
    requires ConnExists(b)
  {
    var (b1, r, rest) := ReceiveConnects(b, script);
    if !r.DialOk? || readOk then (b1, rest)
    else
      var (b2, _, rest') := DialCall(b1, b1.connGen, rest);
      (b2, rest')
  }
}
