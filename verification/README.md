# mwarp: a verified model of its protocols

mwarp runs Cloudflare WARP behind an inner SOCKS5 path and userspace WireGuard. This project
models the parts of it that are protocols, parsers or concurrent programs, and proves what they
keep, in Dafny 4.11. `dafny verify dfyconfig.toml` checks everything.

## What is modelled

**Datagrams over a reconnecting TCP stream** (`tcpbind.go`). `Framing` defines the 16-bit length
framing and an independent decoder. `TcpProtocol` is the bind as a machine of interleaved threads:
the regions that run under the mutex are functions on a `Bind` value, a dial is two such regions
with an unlocked gap in between, `sendOne` runs its three-attempt loop under `writeMu`, a `Write`
appends all of a frame or a strict prefix of it and an error, `receive` reads the header and the
rest of a frame in two steps, each of which may fail part way, and any number of `Send`, `receive`
and `Close` calls interleave anywhere. `TcpSafety` is the inductive invariant of that machine,
`TcpDelivery` the end-to-end theorem, `TcpConnections` generations and the fate of connections,
`TcpProgress` the release of the write lock, `TcpHistory` who closed what and what the errors of
`receive` mean, `TcpReceiving` what `receive` takes from a connection while sends and redials go
on, and `TcpRuns` the concrete runs.
`TcpRedial` says what a dial does in terms of the connection whose failure led to it.
`TcpSequential` describes calls that do not overlap as functions of a script of failures and finds
the exact fault budget of `sendOne`; `TcpAlone` shows that each is a run of the machine in which
only its thread steps and the network answers as the script says. `TcpBind` is the class with the
source's fields, its methods proved against those functions. `Streams` reads a
stream that arrives in pieces of any size; `Receiver` is what successive `receive` calls take out.

**SOCKS5** (`socks5.go`, `proxy.go`, `socks5bind.go`). `Socks5` gives both ends of the handshake as
functions of the bytes received so far, for every input, malformed ones included; `Socks5Format`
pins every message and every verdict on literal bytes; `Handshake`
connects the two ends over every segmentation; `Socks5Conn` has the imperative code of both ends,
proved against those functions. `Socks5Udp` is the UDP relay header and the session with its reused
buffer, `Socks5Bind` the lifecycle of relay sessions over all interleavings and the bind itself. IP
text is abstract: an `IpText` is any parser with any printer, and only the two theorems on replying
to a sender ask that parsing undoes printing. The parser has no zones.

**The command line of warp-svc** (`warp.go`, `warpcmd.go`). `Args` is the splitter's loop, a
reference definition of it in three passes, and its printer, `Launch` the path trim, split,
rewrite, print, trim, split. Text is a sequence of Unicode scalar values.

**dialInNS** (`proxy.go`) and **the anchor thread** (`netns.go`). `DialInNs` and `Anchor` are machines
of goroutines and channels; both prove safety, the absence of stuck states, and a bound on the
number of steps.

In the machines, `Next` returns `None` where an event cannot happen, and `Run` folds it over a
sequence of events, so a theorem about every `Run` from the start is about every interleaving.
Fields called history (`installed`, `sent`, `failed`, `whole`, `cut`, `closes`, `pushes`, `started`,
`finished`) only record what happened; no step looks at them.

Where code and comments differ, the code is followed. Five properties are false as one would first
state them. Each is given with a concrete run or input and with the exact condition, over every run
or input, under which it holds:

- "No connection is lost" fails when two dials overlap in their unlocked part
  (`OverlappingDialsLoseOne`). The connections lost are exactly those that an install replaced while
  they were live (`LostIffOverwritten`).
- "`receive` never reads from nil" (tcpbind.go:212-218) fails without any Close: `receive` finds no
  connection and dials, a `sendOne` finds none either, `receive` installs its connection, and the
  late dial of the sender closes and clears it before `receive` looks again (`ReceiveCanReadNil`).
  It happens exactly if, at that second look at an open bind, the last change of the current
  connection since the dial of `receive` returned was the entry of another dial (`NilReadIff`).
- "`receive` returns `net.ErrClosed` if and only if Close has been called" (tcpbind.go:201-202)
  fails both ways. A sender's redial closes the connection under a read, and the reader returns
  that error from a bind nobody has closed (`ErrClosedWithoutClose`). Close comes while `receive`
  dials, the dial fails, and its error is returned (`CloseWithoutErrClosed`). `ErrClosedIff` is the
  exact condition: `receive` returns `net.ErrClosed` if and only if Close had come by its last
  check, or the dial of another thread closed the connection under its read, or the dialer itself
  answered its dial with `net.ErrClosed`. So the promise fails exactly where one of the last two
  comes without any Close, and where Close comes after the last check of a call that neither ends.
- "`receive` stays in sync" (tcpbind.go:231-236) fails when the drain of an oversized frame breaks
  off: its error is dropped, nobody dials, and if the connection goes on, the next call takes the
  middle of the frame for a datagram (`BrokenDrainMisreads`). A call leaves a connection that stays
  usable at the beginning of a frame exactly if it has not stopped draining before bytes that were
  to come (`InStepIffDrained`). Connections whose read errors are final, as those of kernel TCP
  without deadlines, do not do that. Calls of `receive` must not overlap
  (`OverlappingReceivesMisread`).
- "The launch path keeps the arguments" fails for a quoted white space at the end
  (`LaunchCanChangeArgv`, `LaunchRewriteIff`).

## Model

| member | source | states |
|---|---|---|
| `Bytes.PutUint16` | tcpbind.go:167 | the two bytes written for a length or port read back as the same number |
| `Bytes.PutInvertsGet` | tcpbind.go:225 | any two bytes read as a number are the bytes written for it |
| `Framing.FrameInBytes` | tcpbind.go:166-168 | a frame is the high and the low byte of its length and then the datagram |
| `Framing.DecodeFrames` | tcpbind.go:163-168 | decoding any list of framed datagrams followed by a cut frame gives back the list and the cut frame |
| `Framing.DecodeIsExact` | tcpbind.go:217-247 | every byte string is the frames the decoder finds followed by what it leaves, and nothing more decodes from that |
| `Framing.CutFrameIffNothingDecoded` | tcpbind.go:217-247 | the strings with no whole frame in them are exactly the strict beginnings of frames |
| `TcpSafety.NextKeepsInv` | tcpbind.go:59-248 | every step of every thread keeps the invariant: generations count installs, the current connection is the newest and open, a failed connection is current only at the entry of its own redial, a writer's generation has no written successor |
| `TcpSafety.KeepsOnInstall` | tcpbind.go:133-142 | installing a connection keeps what every other thread holds |
| `TcpSafety.KeepsOnCut` | tcpbind.go:192-195 | a write that fails part way keeps the invariant |
| `TcpDelivery.OnlyWritesWrite` | tcpbind.go:59-248 | no step but a Write changes the bytes on any connection, and connections become current unused |
| `TcpDelivery.NextDelivers` | tcpbind.go:59-248 | every step keeps the whole datagrams on the connections, in generation order, equal to those reported sent |
| `TcpDelivery.EndToEnd` | tcpbind.go:151-199 | after any run the peer, decoding each connection, dropping a cut frame and going in generation order, has exactly the datagrams whose sendOne returned nil, in order, each once |
| `TcpDelivery.LogIsFramesThenOneCut` | tcpbind.go:163-199 | after any run each connection carries whole frames then at most one cut frame, the cut one only if a write to it failed |
| `TcpDelivery.PeerReceivesWhatWasWritten` | tcpbind.go:163-248 | after any run, receive calls at the other end of any connection and with buffers of any sizes yield the datagrams of its successful writes in order, each one too big for its buffer as a size error, and then no further datagram |
| `TcpConnections.GenerationSafety` | tcpbind.go:80-149 | in every reachable state connGen is the number of installs, the current connection is the one installed at connGen and at no earlier generation, connGen is then at least 1, it is not closed, and the bind is open |
| `TcpConnections.DialClosesOnlyItsGeneration` | tcpbind.go:100-115 | dial(g) with g nonzero closes the connection of generation g or none |
| `TcpConnections.FailedConnectionIsFrozen` | tcpbind.go:170-197 | no byte is ever added to a connection after a write to it has failed |
| `TcpConnections.NeverCurrentAgain` | tcpbind.go:102-143 | a connection that is no longer current never becomes current again |
| `TcpConnections.StepLoses` | tcpbind.go:80-143 | one step adds to the lost connections exactly the live one it overwrites, if any |
| `TcpConnections.LostIffOverwritten` | tcpbind.go:102-143 | after any run the connections that are not current, not closed and not in their dial's hands are exactly those that an install replaced while live |
| `TcpConnections.ConnectionsConserved` | tcpbind.go:59-143 | if no two dials overlap in their unlocked part, every connection is current, closed or in its dial's hands |
| `TcpRuns.OverlappingDialsLoseOne` | tcpbind.go:139 | with two dials in flight a run is given that loses a connection |
| `TcpRuns.ReceiveCanReadNil` | tcpbind.go:212-218 | a run without Close and without overlapping dials is given in which receive reads from nil and panics |
| `TcpRuns.ErrClosedWithoutClose` | tcpbind.go:218-223 | a run without Close and without overlapping dials is given in which receive returns ErrClosed from an open bind, its connection closed by a sender's dial |
| `TcpRuns.CloseWithoutErrClosed` | tcpbind.go:209-211 | a run with Close in the gap of receive's dial is given in which the error of the dial is returned |
| `TcpRuns.OverlappingReceivesMisread` | tcpbind.go:217-247 | with two calls of receive on one connection a run without any error is given in which one reads the header of a frame and the other takes its body for a frame, and so a datagram nobody sent |
| `TcpRuns.BrokenDrainMisreads` | tcpbind.go:231-236 | a run without Close, overlapping dials or overlapping receives is given in which the drain of an oversized frame breaks off and the next receive takes a datagram nobody sent |
| `TcpHistory.WhoClosesWhat` | tcpbind.go:80-143 | after any run a connection is closed exactly if Close, the entry of a dial or the discard of a dial closed it; a dial entered with nonzero g closes only the connection of generation g, Close only an installed one, a discard only one never installed |
| `TcpHistory.NilReadIff` | tcpbind.go:208-218 | after any run a step brings receive to read from nil exactly if it is its second look at an open bind and the last change of the current connection since its own dial returned was the entry of another thread's dial |
| `TcpHistory.ReturnedMeansReturn` | tcpbind.go:203-248 | the steps to which an outcome of receive is attached are exactly those that end the call |
| `TcpHistory.ErrClosedIff` | tcpbind.go:201-248 | after any run a returning receive gives ErrClosed if and only if Close had come by its last check, another thread's dial closed the connection under its read, or the dialer answered its dial so; the promise "ErrClosed if and only if Close" fails exactly where one of the last two comes without Close and where Close comes after the last check of a call that neither ends; Close has been called if and only if the bind is not open at the return |
| `TcpRedial.RedialClosesTheFailed` | tcpbind.go:102-128 | after any run, a dial entered after a failed read or write of connection c dials exactly if the bind is open and c is still the last one installed; it closes c or nothing, and if another connection is current it changes nothing; a dial for want of a connection dials exactly if the bind is open |
| `TcpRedial.FailureAwaitsDial` | tcpbind.go:192-195 | after any run in which a read of a header or body, or a write, of a thread was the last to fail, the thread is entering its dial, or in receive about to look at open: it returns on a closed bind and otherwise enters it |
| `TcpRedial.OpenEndsConnectedOrClosed` | tcpbind.go:59-78 | after any run, whatever Close does meanwhile, an Open returns with the bind open and connected or with neither |
| `TcpReceiving.ReceivesInStep` | tcpbind.go:203-248 | in any run whose calls of receive do not overlap, with sends, redials and Closes between any two reads and with failed reads that use up any part of what was to come, no read of a connection ends after one of a header or body has failed, and until a drain stops before bytes that were to come the calls return what taking whole frames from its stream gives |
| `TcpReceiving.ReceivesDatagrams` | tcpbind.go:203-248 | in such a run, on a connection with a framing sender, the calls return its datagrams in order, the too big ones as errors, and nothing comes of its cut frame |
| `TcpReceiving.InStepIffDrained` | tcpbind.go:217-248 | in such a run a call that leaves the connection usable leaves it at the beginning of a frame if and only if it has not stopped draining before bytes that were to come |
| `TcpProgress.OnlyTheLockBlocks` | tcpbind.go:172-199 | in every state of the invariant a thread can move unless it waits for a writeMu that another one holds or has panicked |
| `TcpProgress.HolderReturns` | tcpbind.go:172-199 | each step of the holder of writeMu brings its return nearer and no step of another thread delays it |
| `TcpProgress.LockIsReleased` | tcpbind.go:172-199 | in every run a sendOne that holds writeMu returns after a bounded number of its own steps, 16 from the first attempt |
| `TcpSequential.DialCall` | tcpbind.go:102-143 | a dial that nothing overlaps keeps open, gives ErrClosed on a bind not open or if the dialer does, is a no-op for a stale generation, leaves no connection after a failed dial, and otherwise installs a new one as the next generation and closes the one it replaces |
| `TcpSequential.SendSurvives` | tcpbind.go:163-199 | if at most two writes or dials fail starting connected, at most one starting disconnected, sendOne succeeds, unless that one is a dial whose error is ErrClosed, which is returned |
| `TcpSequential.BudgetIsTight` | tcpbind.go:163-199 | for every open bind and datagram some script with one failure more makes sendOne give up |
| `TcpSequential.SendKeepsOpen` | tcpbind.go:172-199 | sendOne leaves open as it was, and answers ErrClosed on a bind that is not open, on an open one exactly if the script of failures alone says that a dial for a missing connection gets that error |
| `TcpAlone.DialReaches` | tcpbind.go:102-143 | a whole dial is a run of its thread alone, in which the dialer answers as the script says |
| `TcpAlone.SendReaches` | tcpbind.go:163-199 | a whole sendOne is its call and then steps of its thread alone, in which writes and dials end as the script says and exactly what SendCall uses up of it, and sent grows by the datagram exactly if it succeeded |
| `TcpAlone.OpenReaches` | tcpbind.go:59-78 | a whole Open is its call and then steps of its thread alone, with the answers of the script |
| `TcpAlone.CloseReaches` | tcpbind.go:80-89 | Close is a run of the interleaved protocol |
| `TcpAlone.ReceiveReaches` | tcpbind.go:203-248 | a whole receive, on a bind that is open or not, with a frame of any size for its buffer or a broken read, is its call and then steps of its thread alone that send nothing; it contains the header and the rest of the frame, and a failed read exactly if the frame is broken |
| `TcpAlone.SettledDelivers` | tcpbind.go:151-199 | between calls the peer's view is exactly what was sent |
| `Streams.ReadFull` | tcpbind.go:217-244 | io.ReadFull yields exactly the next n bytes whatever the sizes of the reads, or fails after taking all there was |
| `Receiver.ReceiverStaysInStep` | tcpbind.go:203-248 | for any datagrams and any buffer sizes, successive receive calls give each datagram in order, one error for each that is too big, and leave what follows the last frame untouched |
| `Receiver.CutFrameBreaks` | tcpbind.go:217-244 | with any buffer a cut frame at the end of a stream yields no datagram and is used up; the read is broken exactly if the header is cut or says no more than the buffer holds |
| `Receiver.FramesThenErrors` | tcpbind.go:203-248 | any number of receive calls on whole frames and a cut one give the datagrams or their size errors in order and then only errors |
| `TcpBind.TCPBind.constructor` | tcpbind.go:43-49 | a new bind is closed, without connection, at generation 0, and nothing is sent |
| `TcpBind.TCPBind.PeerDecodesSent` | tcpbind.go:18-26 | the peer of a valid bind has been given exactly the datagrams sent |
| `TcpBind.TCPBind.Close` | tcpbind.go:80-89 | the bind ends not open and without connection, exactly the one it had is closed, everything else is untouched |
| `TcpBind.TCPBind.Dial` | tcpbind.go:102-143 | the fields end as the dial function says, and a connection is added with the bytes that will come on it |
| `TcpBind.TCPBind.Open` | tcpbind.go:59-78 | changes nothing exactly on an open bind; otherwise it opens with a new connection, one generation up, exactly if the dial succeeds, and else ends not open with everything as it was; pending bytes stay and a new connection has all that will arrive to come |
| `TcpBind.TCPBind.WriteConn` | tcpbind.go:192 | a write puts the whole frame or a strict prefix on that connection and nothing elsewhere |
| `TcpBind.TCPBind.SendTurn` | tcpbind.go:175-197 | one turn of the loop ends the call or leaves it to the next attempt, keeps the pending bytes of existing connections, and a new one has all that will arrive to come |
| `TcpBind.TCPBind.SendOne` | tcpbind.go:163-199 | sent grows by the datagram exactly on success, ErrClosed exactly if not open or the dialer ends the call, the fault budget, valid after it, pending bytes kept and untouched new connections |
| `TcpBind.TCPBind.Send` | tcpbind.go:151-161 | exactly the datagrams before the first error are sent, in order; the error is a datagram over 65535 bytes or a failed sendOne, ErrClosed if not open; pending bytes are kept and new connections untouched |
| `TcpBind.TCPBind.ReadFrame` | tcpbind.go:217-247 | one frame is taken from the connection, its payload fills the buffer's beginning, a too big one is drained and leaves the buffer alone, a broken one leaves what came of it in the buffer, and no other connection loses bytes |
| `TcpBind.TCPBind.Connect` | tcpbind.go:208-216 | receive has a connection to read from or the dial failed, and nothing has been read |
| `TcpBind.TCPBind.Receive` | tcpbind.go:203-248 | refused exactly if not open; the dial's error exactly if there is no connection and the dial fails, with nothing changed; otherwise one frame of the current or new connection, after which the bind is as it was once connected, but after a broken read that connection is closed and the next is current one generation up if the redial succeeds, and none if not; the buffer is given for every outcome and nothing else is read |
| `TcpBind.TCPBind.ReadOrRedial` | tcpbind.go:217-247 | from its first read on receive takes one frame of the connection and redials its generation exactly if the read broke off |
| `Args.SplitCommand` | warp.go:295-330 | the loop computes the splitting function, on which the laws below are proved |
| `Args.JoinCommand` | warpcmd.go:98-104 | the loop computes the printing function |
| `Args.SplitIsThreePasses` | warp.go:295-330 | for every text the one-pass loop gives what lexing escapes, marking separators outside quotes and cutting into words give, errors included |
| `Args.UnterminatedIffOdd` | warp.go:321-323 | the error for an open quote arises exactly with an odd number of quotes that no backslash takes |
| `Args.TwoPassesEscape` | warpcmd.go:110-111 | the two ReplaceAll passes together escape each backslash and quote once, character by character |
| `Args.FeedQuoteArg` | warpcmd.go:106-113 | scanning a printed argument adds exactly its characters to the current argument |
| `Args.SplitUndoesJoin` | warp.go:295-330 | splitting a printed argument list gives its non-empty arguments in order, and fails exactly when there are none |
| `Args.BlanksSeparate` | warp.go:312-318 | a space or a tab between two plain words separates them, and any other ordinary character joins them into one argument |
| `Args.PrintedPlainIff` | warpcmd.go:106-113 | an argument is printed as it is exactly if it is not empty and has no space, tab, quote or backslash, and otherwise escaped in quotes |
| `Args.SplitIsNonEmpty` | warp.go:312-329 | a successful split has at least one argument and none is empty |
| `Args.PrintingIsStable` | warpcmd.go:58-67 | printing an accepted command and splitting again gives the same argv |
| `Launch.TrimSpaceSplits` | warpcmd.go:54 | trimming takes off white space and nothing else, and all of it at both ends |
| `Launch.HasNameIff` | warpcmd.go:91-94 | a path has a name exactly if its last element, trailing slashes aside, is there and is not . |
| `Launch.BaseSplits` | warpcmd.go:91 | the name found is the last element of the path, without slash, trailing slashes aside |
| `Launch.TargetKeepsName` | warpcmd.go:91-95 | the rewritten executable is /warp/ and the same name, except for the name .., which gives / |
| `Launch.PrepareWarpSvcCommand` | warpcmd.go:53-68 | disabled exactly for a blank command, an error exactly if splitting fails, ready exactly if the executable is found and named, and then only element 0 is replaced |
| `Launch.ShorterTextSplitsDifferently` | warp.go:78 | cutting an ordinary last character, or more, off an accepted text changes the argv |
| `Launch.LaunchUndoesJoinIff` | warp.go:77-86 | StartWarpSvc recovers the printed argv if and only if the last argument is not an unquoted one ending in white space |
| `Launch.LaunchRewriteIff` | warpcmd.go:53-68 | for every accepted command the recovered argv is the original with element 0 replaced if and only if that condition holds of the last rewritten argument |
| `Launch.LaunchCanChangeArgv` | warp.go:78 | a quoted newline at the end of a command is lost |
| `Socks5.ReadAddressOfHost` | proxy.go:118-145 | reading the address the client writes gives the canonical host and leaves what follows |
| `Socks5.ReadAddressOfPrefix` | proxy.go:118-145 | any strict beginning of such an address is not enough |
| `Socks5Format.FixedMessages` | socks5.go:128 | the greeting, the welcome and the reply in bytes |
| `Socks5Format.RequestInBytes` | socks5.go:144-166 | the request in bytes for IPv4 and IPv6 literals and for names, refused for a name over 255 bytes |
| `Socks5Format.ReplyIff` | socks5.go:168-212 | a reply is accepted, with this host, port and rest, if and only if it is 5, 0, any byte, an address with that text, the port and the rest |
| `Socks5Format.ReplyRefusedIff` | socks5.go:173-204 | a reply is refused if and only if four bytes are there and the version is not 5, or the code is not 0, or the address type is unknown |
| `Socks5Format.ClientDoneIff` | socks5.go:66-79 | the client succeeds if and only if its host can be written and the input is the welcome and such a reply |
| `Socks5Format.ClientFailsIff` | socks5.go:66-79 | the client fails if and only if the welcome is another, the name is too long, or the reply is refused |
| `Socks5Format.ClientWrites` | socks5.go:66-79 | the client writes its greeting at once and its request exactly after the welcome, if its host can be written |
| `Socks5Format.RequestIff` | proxy.go:68-94 | the server dials host and port with this rest if and only if the request is 5, 1, any byte, an address with that text, the port and the rest |
| `Socks5Format.RequestOutcome` | proxy.go:68-86 | any other command is answered with 7, an unknown address type or an address cut short with 1, anything else cut short with nothing |
| `Socks5Format.GreetingOutcome` | proxy.go:51-66 | before the request the server says nothing to another version or an incomplete greeting |
| `Handshake.ServerOnRequest` | proxy.go:47-94 | the server dials the client's canonical host and port and keeps the bytes after the request for the pipe |
| `Handshake.ServerOnPartOfRequest` | proxy.go:68-86 | on any strict beginning of the request the server waits and has written only its welcome |
| `Handshake.ClientOnSuccess` | socks5.go:168-212 | the client accepts the success reply and keeps the bytes after it for the pipe |
| `Handshake.ClientOnRefusal` | socks5.go:176-178 | the client never succeeds on a refusal, whatever its nonzero code, and fails once it is all there |
| `Handshake.RestIsFinal` | proxy.go:47-112 | there is one state in which nothing is on the way, and short of it some byte can arrive |
| `Handshake.HandshakeComposes` | proxy.go:47-112 | whatever the segmentation the exchange ends, the server has then dialled the canonical host and port, the client succeeded exactly if that dial did, and each end has left exactly what the other one piped |
| `Socks5Conn.ReadSocks5Addr` | proxy.go:118-145 | the method reads what the address function says and leaves the rest |
| `Socks5Conn.Socks5Greet` | socks5.go:126-142 | succeeds exactly if the answer is version 5 and no authentication, having written the greeting |
| `Socks5Conn.Socks5WriteRequest` | socks5.go:144-166 | writes exactly the request, nothing for a name over 255 bytes |
| `Socks5Conn.Socks5ReadReply` | socks5.go:168-212 | succeeds exactly on a complete success reply and leaves what follows it |
| `Socks5Conn.DialThrough` | socks5.go:66-79 | the client's code writes and decides what the client function says, for every input |
| `Socks5Conn.ReadGreeting` | proxy.go:51-62 | accepts exactly a version 5 greeting with all its methods |
| `Socks5Conn.HandleProxyConn` | proxy.go:47-112 | the server's code dials, answers and pipes what the server function says, for every input |
| `Socks5Udp.Socks5UDPSession.ReadSocket` | socks5.go:278-282 | a datagram, cut to the buffer, replaces its beginning |
| `Socks5Udp.Socks5UDPSession.ParseHeader` | socks5.go:283-326 | every index stays within the datagram and the header read is that of the pure parser |
| `Socks5Udp.Socks5UDPSession.ReadFrom` | socks5.go:277-335 | the result depends on this datagram alone although the buffer is reused, the caller gets exactly the payload, and any error leaves the caller's buffer as it was |
| `Socks5Udp.Socks5UDPSession.WriteToHost` | socks5.go:241-273 | the socket is given exactly the wrapped datagram, and success means all of it went |
| `Socks5Udp.WrapInBytes` | socks5.go:241-263 | the datagram in bytes for IPv4 and IPv6 literals and for names, refused for a name over 255 bytes |
| `Socks5Udp.ReadsExactly` | socks5.go:277-335 | for every datagram and room: its address, port and payload if and only if its first 65557 bytes have the format and the payload has room; with the format and no room, the short-buffer error |
| `Socks5Udp.RefusedBecause` | socks5.go:283-326 | which error any other datagram gets |
| `Socks5Udp.ReadUndoesWrite` | socks5.go:241-335 | for every IP literal, port and payload up to 65535 bytes the wrapped datagram fits the buffer and reads back as the same address, port and payload |
| `Socks5Udp.ScratchIsTight` | socks5.go:223 | the largest such datagram fills the buffer exactly |
| `Socks5Udp.NamesAreRejected` | socks5.go:308-323 | a datagram written to a name is always rejected on reading |
| `Socks5Udp.AcceptsExactlyTheFormat` | socks5.go:283-334 | a datagram is read as address, port and payload if and only if it is FRAG 0 with that address, or a literal for it in domain form, then the port and the payload |
| `Socks5Udp.ReplyGoesToSender` | socks5bind.go:174-180 | a reply to a received endpoint carries the received address and port |
| `Socks5Udp.HeaderReproducedIff` | socks5bind.go:96-132 | the received datagram is reproduced byte for byte if and only if it used an IP address type and zero reserved bytes |
| `Socks5Bind.NextKeepsInv` | socks5bind.go:33-72 | every step of Open, Close, Send and receive keeps the account of sessions |
| `Socks5Bind.SessionsConserved` | socks5bind.go:33-72 | in every reachable state a stored session means the bind is open, and each session is stored, in the charge of exactly one call, or closed exactly once |
| `Socks5Bind.QuietSessions` | socks5bind.go:33-72 | once all calls have returned a session is stored or was closed exactly once |
| `Socks5Bind.ClosedUntilOpened` | socks5bind.go:33-72 | after Close, whatever runs, the bind is not open and has no session until the next Open, and that is accepted |
| `Socks5Bind.StoredUntilClosed` | socks5bind.go:33-72 | a stored session stays stored and the bind open through any run without Close |
| `Socks5Bind.OpenStores` | socks5bind.go:45-60 | an Open whose association succeeds stores the new session, or closes it once if Close has come |
| `Socks5Bind.OpenReverts` | socks5bind.go:45-51 | an Open whose association fails ends with the bind not open and closes nothing |
| `Socks5Bind.UsesTheStored` | socks5bind.go:134-138 | Send and receive use a session exactly if it is the stored one |
| `Socks5Bind.Socks5Bind.Open` | socks5bind.go:33-60 | refused exactly if open, otherwise holds the new session, or is closed again after a failed association, or closes the new session, once, exactly if Close came before it |
| `Socks5Bind.Socks5Bind.Close` | socks5bind.go:62-72 | the bind ends not open and without session, and the session it held has been closed once |
| `Socks5Bind.Socks5Bind.Receive` | socks5bind.go:117-132 | refused exactly if not open or without session, otherwise the payload and the endpoint the datagram names, or the error with the buffer as it was |
| `Socks5Bind.Socks5Bind.Send` | socks5bind.go:96-115 | refused exactly if not open or without session, otherwise every payload up to the first failure is handed over wrapped for the endpoint, in order |
| `DialInNs.Descriptors.ConnectInNS` | proxy.go:253-287 | a successful attempt leaves one descriptor in use, the connection's, and a failed one none |
| `DialInNs.NextKeepsInv` | proxy.go:164-210 | every step keeps the count of results and the one place of each connection |
| `DialInNs.SendersNeverBlock` | proxy.go:164-195 | in every reachable state at most one result was sent, and a sender finds the slot empty |
| `DialInNs.NoConnectionLost` | proxy.go:150-211 | when all has ended exactly one result was sent, and each opened connection was returned and not closed, or closed exactly once |
| `DialInNs.CallerIsToldTheTruth` | proxy.go:164-210 | after any run a caller with a result has the connection if and only if some attempt succeeded, and an error if and only if the namespaces could not be entered, resolution failed, or as many attempts failed as there are addresses |
| `DialInNs.EitherMayWin` | proxy.go:196-210 | with a result ready and the context done the caller may return either way, and after a cancellation the drain gets the result |
| `DialInNs.UncancelledReturns` | proxy.go:196-210 | a run that has ended without a cancellation has given its caller a result |
| `DialInNs.NeverStuck` | proxy.go:166-210 | until all has ended some step other than a cancellation is possible |
| `DialInNs.EveryRunEnds` | proxy.go:150-211 | the number of steps is bounded, and a run that cannot go on has ended every goroutine |
| `Anchor.NextKeepsInv` | netns.go:139-146 | every step keeps the order of tasks and the place of each result |
| `Anchor.TasksRunOnceInOrder` | netns.go:477-485 | an accepted task is begun exactly once, one after the other, and its own caller gets its result |
| `Anchor.RefusedOnlyAfterClose` | netns.go:477-485 | after any run a caller has been refused only if Close has come |
| `Anchor.EveryCallerIsServed` | netns.go:139-146 | in a run without Close only so many steps are possible without new calls, and then every caller has its own result and the anchor serves |
| `Anchor.ServedAfterClose` | netns.go:479-483 | a run in which a caller that came before Close is served after it |
| `Anchor.NeverStuckAfterClose` | netns.go:425-429 | after Close, a state with no step left has every caller returned and the anchor gone |
| `Anchor.EveryCallerReturns` | netns.go:425-485 | from every reachable state after Close only so many steps are possible without new calls, and then every caller has its own result or the refusal |

## Left out

- Open overlapping Send, receive or another Open, on both binds: the machines let Open start only alone (TCP) or as the only Open (SOCKS5); Close may overlap everything.
- More than 2^64 - 1 installs on one TCPBind: connGen wraps in the model as in the source, and the theorems hold up to the wrap.
- TcpBind.TCPBind.Dial: has no check of open in its second region, because nothing can close the bind during a call that is not overlapped; the interleaved machine has that check.
- What a nil read does to the rest of the program (tcpbind.go:218): in the machine the panic ends that call and every other thread may go on, so the theorems hold of longer runs than the program has.
- Single reads inside io.ReadFull (tcpbind.go:218, 235, 238): in the machine each io.ReadFull is one step, so two overlapping calls do not share the bytes of one header or body.
- A connection whose own read error is net.ErrClosed while the bind has not closed it: reads give that error exactly on connections the bind has closed.
- TcpBind.TCPBind.ReadFrame: a read fails only where the stream ends; the machine has reads that fail before and the bytes that may follow.
- Bytes that a Write accepted but the network lost: a log is what Write took, and the peer's view is the decoding of that log.
- The syntax of IP literals and their zones, DNS, host and port splitting, and exec.LookPath: parameters of the model.
- The endpoint type test in Socks5Bind.Send, ParseEndpoint and the accessors of endpoints: only endpoints of the bind's own type occur.
- UDPAssociate, DialContext around its handshake, and the pipe between the two connections: plumbing around the modelled parts.
- Whether a SOCKS5 client offered the no-authentication method: the server answers it unasked, as in the source.
- Deadlines, keepalives, back-off sleeps and logging.
- Two concurrent Close calls on a NetNS, which may close stopCh twice.
- egress.go, tundev.go, nsstack.go, wg.go and the mounts in netns.go: netlink, nftables, gVisor, WireGuard and mount calls, whose meaning is in the kernel or in libraries.
- config.go, main.go, run.go and log.go: flags, start-up order, a child process and logging.
- warpready.go and the retry loops around warp-cli in warp.go: polling of an outside program against real time.
- caps.go: bit masks of capabilities handed to the kernel.
