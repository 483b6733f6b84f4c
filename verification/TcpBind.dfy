/** TCPBind itself: its fields, and its methods for calls that do not overlap. */
module TcpBind {
  import opened Bytes
  import opened Framing
  import opened Streams
  import opened Receiver
  import opened TcpProtocol
  import opened TcpSequential
  import opened TcpAlone

  datatype BatchResult = AllSent | TooLarge | SendError(r: SendResult)

  datatype ReceiveResult = Took(r: Received) | NotOpen | NoConnection(d: DialResult)

  function Closed(conns: seq<Conn>, c: nat): seq<Conn>
    requires c < |conns|
  {
    conns[c := conns[c].(closed := true)]
  }

  /** The connection that receive reads from: the one it found or else a new one. */
  function ReadFrom(conn: Option<nat>, conns: seq<Conn>): nat {
    if conn.Some? then conn.value else |conns|
  }

  /**
   The bind after a receive that read from c := ReadFrom(b). It is as it was once connected, unless
   the read broke off: then c has been closed, and if the redial succeeded another connection is
   current, one generation up, and if not there is none.
   */
  predicate AfterFrame(b: Bind, b': Bind, broken: bool, script: seq<Io>) {
    var c := ReadFrom(b.conn, b.conns);
    var gen := if b.conn.Some? then b.connGen else b.connGen + 1;
    var conns := if b.conn.Some? then b.conns else b.conns + [Fresh];
    var redial := First(if b.conn.Some? then script else Rest(script));
    && b.open && b'.open && c < |conns|
    && if !broken then b'.conn == Some(c) && b'.connGen == gen && b'.conns == conns
       else if redial.Succeeds? then
         b'.conn == Some(|conns|) && b'.connGen == gen + 1 && b'.conns == Closed(conns, c) + [Fresh]
       else b'.conn.None? && b'.connGen == gen && b'.conns == Closed(conns, c)
  }

  lemma ReceiveCallIs(b: Bind, broken: bool, script: seq<Io>)
    requires ConnExists(b) && b.open && b.connGen + 2 < GENERATIONS
    ensures ReceiveConnects(b, script).1.DialOk? <==> b.conn.Some? || First(script).Succeeds?
    ensures ReceiveConnects(b, script).1.DialOk? ==> AfterFrame(b, ReceiveCall(b, !broken, script).0, broken, script)
    ensures !ReceiveConnects(b, script).1.DialOk? ==>
              ReceiveConnects(b, script).0 == b && ReceiveConnects(b, script).1 == AnswerOf(First(script))
  {
  }

  lemma OneMore<T>(before: seq<T>, s: seq<T>, i: nat)
    requires i < |s|
    ensures before + s[..i + 1] == before + s[..i] + [s[i]]
  {
  }

  /** What the reading of a frame puts in the caller's buffer, given the bytes that were to come. */
  function Delivered(pending: seq<byte>, r: Received): seq<byte> {
    match r
    case Packet(p) => p
    case Oversized(_) => []
    case Broken => if |pending| < 2 then [] else pending[2..]  // the body, as far as it came
  }

  /** A buffer with the bytes bs at its beginning. */
  function Filled(buf: seq<byte>, bs: seq<byte>): seq<byte> {
    bs + if |bs| <= |buf| then buf[|bs|..] else []
  }

  class TCPBind {
    var open: bool
    var conn: Option<nat>
    var connGen: nat

    /** The network: what the dialer has returned, and the bytes still to come on each. */
    var conns: seq<Conn>
    var inbound: seq<seq<byte>>
    const arrivals: nat -> seq<byte>

    /** History. */
    ghost var installed: seq<nat>
    ghost var sent: seq<Datagram>
    ghost var failed: set<nat>

    ghost function View(): Bind
      reads this
    {
      Bind(open, conn, connGen, conns, installed)
    }

    ghost function Machine(): Sys
      reads this
    {
      Sys(View(), map[], None, sent, failed)
    }

    /** The bytes to come on connection d: those pending before, or all there will be on a new one. */
    function Coming(before: seq<seq<byte>>, d: nat): seq<byte> {
      if d < |before| then before[d] else arrivals(d)
    }

    /** Nothing has been read since. */
    ghost predicate PendingKept(before: seq<seq<byte>>)
      reads this
    {
      |before| <= |inbound| && forall d :: 0 <= d < |inbound| ==> inbound[d] == Coming(before, d)
    }

    /** One frame, and nothing else, has been read since, from connection c and with this outcome. */
    ghost predicate OneTaken(before: seq<seq<byte>>, c: nat, size: nat, f: Received)
      reads this
    {
      && c < |inbound| && |before| <= |inbound|
      && (f, inbound[c]) == ReceiveFrame(Coming(before, c), size)
      && forall d :: 0 <= d < |inbound| && d != c ==> inbound[d] == Coming(before, d)
    }

    ghost predicate Valid()
      reads this
    {
      Settled(Machine()) && ConnExists(View()) && |inbound| == |conns|
    }

    /** What Valid is for: the peer has been given exactly the datagrams sent. */
    lemma PeerDecodesSent()
      requires Valid()
      ensures InstalledExist(View()) && PeerView(ByGeneration(View())) == sent
    {
      SettledDelivers(Machine());
    }

    constructor (arrivals: nat -> seq<byte>)
      ensures Valid() && View() == NewBind && sent == [] && this.arrivals == arrivals
    {
      this.arrivals := arrivals;
      open, conn, connGen, conns, inbound := false, None, 0, [], [];
      installed, sent, failed := [], [], {};
      new;
      assert Run(Start, []) == Some(Machine());
    }

    method Close()
      requires Valid()
      modifies this
      ensures Valid() && View() == CloseBind(old(View())) && sent == old(sent) && inbound == old(inbound)
      ensures !open && conn.None? && connGen == old(connGen)
      ensures old(conn).Some? ==> old(conn).value < |conns| && conns == Closed(old(conns), old(conn).value)
      ensures old(conn).None? ==> conns == old(conns)
    {
      ghost var s := Machine();
      SettledBind(s);
      CloseReaches(s);
      open := false;
      if conn.Some? {
        conns := MarkClosed(conns, conn.value);
        conn := None;
      }
      StaysSettled(s, Machine());
    }

    method Dial(staleGen: nat, script: seq<Io>) returns (r: DialResult, rest: seq<Io>)
      requires ConnExists(View()) && |inbound| == |conns|
      modifies this`conn, this`connGen, this`conns, this`inbound, this`installed
      ensures (View(), r, rest) == DialCall(old(View()), staleGen, script)
      ensures |inbound| == |conns|
      ensures inbound == old(inbound) || inbound == old(inbound) + [arrivals(|old(inbound)|)]
      ensures !r.DialOk? ==> inbound == old(inbound)
    {
      // first locked region
      if !open {
        return DialClosed, script;
      }
      if staleGen != 0 && staleGen != connGen {
        return DialOk, script;
      }
      if conn.Some? {
        conns := MarkClosed(conns, conn.value);
        conn := None;
      }
      // unlocked
      if First(script).Fails? {
        return if First(script).errClosed then DialClosed else DialFailed, Rest(script);
      }
      var c := |conns|;
      conns, inbound := conns + [Fresh], inbound + [arrivals(c)];
      // second locked region
      conn, connGen := Some(c), (connGen + 1) % GENERATIONS;
      installed := installed + [c];
      return DialOk, Rest(script);
    }

    method Open(script: seq<Io>) returns (r: OpenResult, rest: seq<Io>)
      requires Valid() && |installed| + 1 < GENERATIONS
      modifies this
      ensures Valid() && sent == old(sent) && PendingKept(old(inbound))
      ensures (View(), r, rest) == OpenCall(old(View()), script)
      ensures r.AlreadyOpen? <==> old(open)
      ensures r.AlreadyOpen? ==> View() == old(View()) && rest == script
      ensures !old(open) ==> (r.Opened? <==> First(script).Succeeds?) && rest == Rest(script)
      ensures r.Opened? ==>
                && open && conn == Some(|old(conns)|)
                && conns == old(conns) + [Fresh] && connGen == old(connGen) + 1
      ensures r.OpenFailed? ==> !open && conn.None? && conns == old(conns) && connGen == old(connGen)
    {
      ghost var s := Machine();
      SettledBind(s);
      if open {
        return AlreadyOpen, script;
      }
      open := true;
      var d;
      d, rest := Dial(connGen, script);
      if d.DialOk? {
        r := Opened;
      } else {
        r, open := OpenFailed, false;
      }
      NoteOpen(s, script);
    }

    /** The history after a call of Open from s that has just ended. */
    ghost method NoteOpen(s: Sys, script: seq<Io>)
      requires Settled(s) && ConnExists(s.b) && View() == OpenCall(s.b, script).0 && sent == s.sent
      requires |installed| < GENERATIONS && |inbound| == |conns|
      modifies this`failed
      ensures Valid()
    {
      var s' := OpenReaches(s, script);
      failed := s'.failed;
      CallStaysSettled(s, CallOpen(0), s', script, Trace(OpenCall(s.b, script).2, []));
    }

    /** c.Write(buf) with a whole frame in buf. */
    method WriteConn(c: nat, p: Datagram, io: Io) returns (w: WriteOutcome)
      requires c < |conns|
      modifies this`conns
      ensures w == WriteResult(old(conns[c]), p, io)
      ensures View() == WriteFrame(old(View()), c, p, w) && |conns| == |old(conns)|
      ensures conns[c].log == old(conns[c].log) + if w.Wrote? then Frame(p) else Frame(p)[..w.k]
      ensures conns[c].closed == old(conns[c].closed) && (w.Wrote? ==> !conns[c].closed)
      ensures forall d :: 0 <= d < |conns| && d != c ==> conns[d] == old(conns[d])
    {
      w := WriteResult(conns[c], p, io);
      conns := conns[c := AfterWrite(conns[c], p, w)];
    }

    /** A turn of sendOne's loop: either the call is over, or it goes on with what is left. */
    method SendTurn(p: Datagram, attempt: nat, script: seq<Io>) returns (done: bool, r: SendResult, rest: seq<Io>)
      requires ConnExists(View()) && |inbound| == |conns| && attempt < 3
      modifies this`conn, this`connGen, this`conns, this`inbound, this`installed
      ensures ConnExists(View()) && |inbound| == |conns| && |installed| <= |old(installed)| + 1
      ensures PendingKept(old(inbound))
      ensures SendCall(old(View()), p, attempt, script) ==
              if done then (View(), r, rest) else SendCall(View(), p, attempt + 1, rest)
    {
      if !open {
        return true, SendClosed, script;
      }
      if conn.None? {
        var d, left := Dial(0, script);
        return d.DialClosed?, SendClosed, left;
      }
      var gen := connGen;
      var w := WriteConn(conn.value, p, First(script));
      if w.Wrote? {
        return true, Sent, Rest(script);
      }
      var _, left := Dial(gen, Rest(script));
      return false, GaveUp, left;
    }

    method SendOne(p: Datagram, script: seq<Io>) returns (r: SendResult, rest: seq<Io>)
      requires Valid() && |installed| + 3 < GENERATIONS
      modifies this
      ensures Valid() && |installed| <= |old(installed)| + 3 && PendingKept(old(inbound))
      ensures (View(), r, rest) == SendCall(old(View()), p, 0, script)
      ensures sent == old(sent) + if r.Sent? then [p] else []
      ensures open == old(open)
      ensures r.SendClosed? <==> !old(open) || DialerEndsSend(old(conn).Some?, 3, script)
      ensures NeverErrClosed(script) ==> NeverErrClosed(rest) && (r.SendClosed? <==> !old(open))
      ensures old(open) && Faults(script) - Faults(rest) <= (if old(conn).Some? then 2 else 1) ==>
                if old(conn).None? && IsErrClosed(First(script)) then r.SendClosed? else r.Sent?
    {
      ghost var s := Machine();
      SettledBind(s);
      r, rest := SendLoop(p, script);
      NoteSend(s, p, r, rest, script);
      SendOutcome(s.b, p, script);
      SendEndsBy(s.b, p, script);
    }

    /** sendOne's loop, under writeMu. */
    method SendLoop(p: Datagram, script: seq<Io>) returns (r: SendResult, rest: seq<Io>)
      requires ConnExists(View()) && |inbound| == |conns|
      modifies this`conn, this`connGen, this`conns, this`inbound, this`installed
      ensures ConnExists(View()) && |inbound| == |conns| && |installed| <= |old(installed)| + 3
      ensures PendingKept(old(inbound))
      ensures (View(), r, rest) == SendCall(old(View()), p, 0, script)
    {
      ghost var b := View();
      var attempt, done := 0, false;
      r, rest := GaveUp, script;
      while attempt < 3 && !done
        invariant 0 <= attempt <= 3 && ConnExists(View()) && |inbound| == |conns|
        invariant |installed| <= |old(installed)| + attempt && PendingKept(old(inbound))
        invariant !done ==> r.GaveUp?
        invariant SendCall(b, p, 0, script) == if done then (View(), r, rest) else SendCall(View(), p, attempt, rest)
      {
        done, r, rest := SendTurn(p, attempt, rest);
        if !done {
          r := GaveUp;
        }
        attempt := attempt + 1;
      }
    }

    /** The history after a call of sendOne from s that has just ended with r. */
    ghost method NoteSend(s: Sys, p: Datagram, r: SendResult, rest: seq<Io>, script: seq<Io>)
      requires Settled(s) && ConnExists(s.b) && ConnExists(View()) && sent == s.sent
      requires (View(), r, rest) == SendCall(s.b, p, 0, script)
      requires |installed| < GENERATIONS && |inbound| == |conns|
      modifies this`sent, this`failed
      ensures Valid() && sent == old(sent) + if r.Sent? then [p] else []
    {
      var s' := SendReaches(s, p, script);
      sent, failed := s'.sent, s'.failed;
      CallStaysSettled(s, CallSend(0, p), s', script, Trace(rest, []));
    }

    /** The datagrams before the first error are sent, in order, and no other. */
    method Send(bufs: seq<seq<byte>>, script: seq<Io>) returns (r: BatchResult, rest: seq<Io>, ghost n: nat)
      requires Valid() && |installed| + 3 * |bufs| < GENERATIONS
      modifies this
      ensures Valid() && n <= |bufs| && PendingKept(old(inbound))
      ensures sent == old(sent) + bufs[..n]
      ensures r.AllSent? <==> n == |bufs|
      ensures r.TooLarge? ==> n < |bufs| && 0xFFFF < |bufs[n]|
      ensures r.SendError? ==> n < |bufs| && |bufs[n]| <= 0xFFFF && !r.r.Sent?
      ensures r.SendError? && (NeverErrClosed(script) || !old(open)) ==> (r.r.SendClosed? <==> !old(open))
    {
      rest := script;
      var i := 0;
      while i < |bufs|
        invariant 0 <= i <= |bufs| && Valid() && open == old(open)
        invariant sent == old(sent) + bufs[..i]
        invariant NeverErrClosed(script) ==> NeverErrClosed(rest)
        invariant |installed| <= |old(installed)| + 3 * i && PendingKept(old(inbound))
      {
        if 0xFFFF < |bufs[i]| {
          return TooLarge, rest, i;
        }
        var one;
        one, rest := SendOne(bufs[i], rest);
        if !one.Sent? {
          return SendError(one), rest, i;
        }
        OneMore(old(sent), bufs, i);
        i := i + 1;
      }
      return AllSent, rest, i;
    }

    /** At most the bytes pending on connection c are different from before. */
    ghost predicate OnlyChanged(before: seq<seq<byte>>, c: nat)
      reads this
    {
      |inbound| == |before| && forall d :: 0 <= d < |before| && d != c ==> inbound[d] == before[d]
    }

    /** The reading part of receive, on connection c. */
    method ReadFrame(c: nat, buf: array<byte>) returns (r: Received)
      requires c < |inbound|
      modifies this`inbound, buf
      ensures OnlyChanged(old(inbound), c)
      ensures (r, inbound[c]) == ReceiveFrame(old(inbound[c]), buf.Length)
      ensures buf[..] == Filled(old(buf[..]), Delivered(old(inbound[c]), r))
    {
      var hdr, ok, left := ReadFull(inbound[c], 2);
      inbound := inbound[c := left];
      if !ok {
        return Broken;
      }
      var n := Uint16(hdr);
      if n == 0 {
        return Packet([]);
      }
      if n > buf.Length {
        // drain the frame, whatever comes of it
        var _, _, drained := ReadFull(left, n);
        inbound := inbound[c := drained];
        assert left[|left|..] == [];
        return Oversized(n);
      }
      var body;
      body, ok, left := ReadFull(left, n);
      inbound := inbound[c := left];
      forall i | 0 <= i < |body| {
        buf[i] := body[i];
      }
      if !ok {
        return Broken;
      }
      return Packet(body);
    }

    /** Make sure there is a connection to read from. */
    method Connect(script: seq<Io>) returns (d: DialResult, rest: seq<Io>)
      requires open && ConnExists(View()) && |inbound| == |conns|
      modifies this`conn, this`connGen, this`conns, this`inbound, this`installed
      ensures (View(), d, rest) == ReceiveConnects(old(View()), script) && |inbound| == |conns|
      ensures PendingKept(old(inbound))
      ensures d.DialOk? ==>
                inbound[conn.value] == if old(conn).Some? then old(inbound)[conn.value] else arrivals(conn.value)
    {
      d, rest := DialOk, script;
      if conn.None? {
        d, rest := Dial(0, script);
      }
    }

    /** receive from its first read on, on connection c of generation gen. */
    method ReadOrRedial(c: nat, gen: nat, buf: array<byte>, script: seq<Io>) returns (f: Received)
      requires c < |inbound| && ConnExists(View()) && |inbound| == |conns|
      modifies this`conn, this`connGen, this`conns, this`inbound, this`installed, buf
      ensures View() == (if f.Broken? then DialCall(old(View()), gen, script).0 else old(View()))
      ensures |inbound| == |conns| && OneTaken(old(inbound), c, buf.Length, f)
      ensures buf[..] == Filled(old(buf[..]), Delivered(old(inbound)[c], f))
    {
      f := ReadFrame(c, buf);
      if f.Broken? {
        var _, _ := Dial(gen, script);
      }
    }

    /** The history after a call of receive from s that has just ended. */
    ghost method NoteReceive(s: Sys, size: nat, f: Received, script: seq<Io>)
      requires Settled(s) && ConnExists(s.b) && (s.b.conn.Some? ==> Live(s.b)) && Fits(f, size)
      requires View() == ReceiveCall(s.b, !f.Broken?, script).0 && sent == s.sent
      requires |installed| < GENERATIONS && |inbound| == |conns|
      modifies this`failed
      ensures Valid()
    {
      var s' := ReceiveReaches(s, size, f, script);
      failed := s'.failed;
      CallReaches(s, CallReceive(0), s', script,
                  Trace(ReceiveCall(s.b, !f.Broken?, script).1,
                        if ReceiveConnects(s.b, script).1.DialOk? then ReadsOf(f, size) else []));
      StaysSettled(s, s');
    }

    method Receive(buf: array<byte>, script: seq<Io>) returns (r: ReceiveResult)
      requires Valid() && |installed| + 2 < GENERATIONS
      modifies this, buf
      ensures Valid() && sent == old(sent)
      ensures r.NotOpen? <==> !old(open)
      ensures r.NotOpen? ==> View() == old(View()) && inbound == old(inbound)
      ensures r.NoConnection? <==> old(open) && old(conn).None? && First(script).Fails?
      ensures r.NoConnection? ==> View() == old(View()) && r.d == AnswerOf(First(script))
      ensures r.Took? ==> AfterFrame(old(View()), View(), r.r.Broken?, script)
      ensures r.Took? ==>
                var c := ReadFrom(old(conn), old(conns));
                && OneTaken(old(inbound), c, buf.Length, r.r)
                && buf[..] == Filled(old(buf[..]), Delivered(Coming(old(inbound), c), r.r))
      ensures !r.Took? ==> buf[..] == old(buf[..]) && PendingKept(old(inbound))
    {
      ghost var s := Machine();
      SettledBind(s);
      if !open {
        return NotOpen;
      }
      var d, left := Connect(script);
      if !d.DialOk? {
        ReceiveCallIs(s.b, true, script);
        NoteReceive(s, buf.Length, Broken, script);
        return NoConnection(d);
      }
      var f := ReadOrRedial(conn.value, connGen, buf, left);
      ReceiveCallIs(s.b, f.Broken?, script);
      NoteReceive(s, buf.Length, f, script);
      return Took(f);
    }
  }
}
