/** The receiving side of a transport: bytes arrive in pieces, packets leave whole. */
module Transport {
  import opened Bytes
  import opened Parsed
  import opened ReadEx
  import opened BlockCodec
  import opened Packets

  const FRESH_REVISION: nat := 0

  // ----- the whole stream at once -----

  /** The first `n` packets of a stream, the bytes behind them, and what has been learnt. */
  function TakePackets(d: Bytes, info: Info, n: nat): Option<(seq<Packet<()>>, Bytes, Info)> {
    if n == 0 then Some(([], d, info))
    else
      match ReadPacket(d, 0, info)
      case Ok(p, pos) =>
        (match TakePackets(d[pos..], Learn(info, p), n - 1)
         case Some(r) => Some(([p] + r.0, r.1, r.2))
         case None => None)
      case _ => None
  }

  /** More bytes at the end of the stream are more bytes behind the packets. */
  lemma {:induction false} TakeMore(d: Bytes, more: Bytes, info: Info, n: nat)
    requires TakePackets(d, info, n).Some?
    ensures var r := TakePackets(d, info, n).value;
      TakePackets(d + more, info, n) == Some((r.0, r.1 + more, r.2))
    decreases n
  {
    hide ReadPacket;
    if n > 0 {
      PacketMono(d, d + more, 0, info);
      var p := ReadPacket(d, 0, info);
      TakeMore(d[p.pos..], more, Learn(info, p.value), n - 1);
      assert (d + more)[p.pos..] == d[p.pos..] + more;
    }
  }

  /** One packet more. */
  lemma {:induction false} TakeNext(d: Bytes, info: Info, n: nat)
    requires TakePackets(d, info, n).Some?
    requires ReadPacket(TakePackets(d, info, n).value.1, 0, TakePackets(d, info, n).value.2).Ok?
    ensures var r := TakePackets(d, info, n).value;
      var p := ReadPacket(r.1, 0, r.2);
      TakePackets(d, info, n + 1) == Some((r.0 + [p.value], r.1[p.pos..], Learn(r.2, p.value)))
    decreases n
  {
    hide ReadPacket;
    if n == 0 {
      var p := ReadPacket(d, 0, info);
      assert TakePackets(d[p.pos..], Learn(info, p.value), 0) == Some(([], d[p.pos..], Learn(info, p.value)));
      assert TakePackets(d, info, 1) == Some(([p.value] + [], d[p.pos..], Learn(info, p.value)));
      assert [p.value] + [] == [] + [p.value];
    } else {
      var p := ReadPacket(d, 0, info);
      TakeNext(d[p.pos..], Learn(info, p.value), n - 1);
      var r := TakePackets(d[p.pos..], Learn(info, p.value), n - 1).value;
      var q := ReadPacket(r.1, 0, r.2);
      assert TakePackets(d[p.pos..], Learn(info, p.value), n)
          == Some((r.0 + [q.value], r.1[q.pos..], Learn(r.2, q.value)));
      assert [p.value] + (r.0 + [q.value]) == [p.value] + r.0 + [q.value];
    }
  }

  /** No byte is lost: the bytes behind the packets are the end of the stream. */
  lemma {:induction false} TakeSuffix(d: Bytes, info: Info, n: nat)
    requires TakePackets(d, info, n).Some?
    ensures var rest := TakePackets(d, info, n).value.1;
      |rest| + n <= |d| && d[|d| - |rest|..] == rest
    decreases n
  {
    hide ReadPacket;
    if n > 0 {
      var p := ReadPacket(d, 0, info);
      TakeSuffix(d[p.pos..], Learn(info, p.value), n - 1);
    }
  }

  /** All packets that can be had from the bytes received. */
  function DecodeAll(d: Bytes, info: Info): seq<Packet<()>>
    decreases |d|
  {
    match ReadPacket(d, 0, info)
    case Ok(p, pos) => [p] + DecodeAll(d[pos..], Learn(info, p))
    case _ => []
  }

  /** When no further packet can be had, those taken are all of them. */
  lemma {:induction false} TakenAll(d: Bytes, info: Info, n: nat)
    requires TakePackets(d, info, n).Some?
    requires !ReadPacket(TakePackets(d, info, n).value.1, 0, TakePackets(d, info, n).value.2).Ok?
    ensures TakePackets(d, info, n).value.0 == DecodeAll(d, info)
    decreases n
  {
    hide ReadPacket;
    if n > 0 {
      var p := ReadPacket(d, 0, info);
      TakenAll(d[p.pos..], Learn(info, p.value), n - 1);
    }
  }

  /** Taken packets are the first ones of all packets. */
  lemma {:induction false} TakenPrefix(d: Bytes, info: Info, n: nat)
    requires TakePackets(d, info, n).Some?
    ensures TakePackets(d, info, n).value.0 <= DecodeAll(d, info)
    decreases n
  {
    hide ReadPacket;
    if n > 0 {
      var p := ReadPacket(d, 0, info);
      TakenPrefix(d[p.pos..], Learn(info, p.value), n - 1);
    }
  }

  // ----- what a connection learns -----

  /** A greeting is learnt as a whole, and nothing else is learnt. */
  lemma LearnsGreeting(d: Bytes, info: Info)
    requires TakePackets(d, info, 1).Some?
    ensures var (ps, _, known) := TakePackets(d, info, 1).value;
      |ps| == 1
      && known == if ps[0].Hello? then Info(Some(ps[0].server.timezone), ps[0].server.revision, info.zones)
                  else info
  {
    hide ReadPacket;
    var p := ReadPacket(d, 0, info);
    assert TakePackets(d[p.pos..], Learn(info, p.value), 0) == Some(([], d[p.pos..], Learn(info, p.value)));
  }

  /** What a server writes after its greeting. */
  datatype Written =
    | PongByte
    | EndByte
    | Fields(packet: Packet<()>)
    | Table(tag: Byte, table: Bytes, block: Block)

  predicate Sendable(w: Written) {
    match w
    case PongByte | EndByte => true
    case Fields(p) => WritablePacket(p)
    case Table(tag, table, b) =>
      (tag == 1 || tag == 7 || tag == 8 || tag == 14) && |table| < U64_LIMIT
      && WellFormedBlock(b) && RecoverableColumns(b.columns)
  }

  function Wire(w: Written, revision: nat): Bytes
    requires Sendable(w)
  {
    match w
    case PongByte => [4]
    case EndByte => [5]
    case Fields(p) => PacketBytes(p, revision)
    case Table(tag, table, b) => DataPacket(tag, table, b, revision)
  }

  /** What the client sees of it. */
  function Seen(w: Written, revision: nat): Packet<()>
    requires Sendable(w)
  {
    match w
    case PongByte => Pong(())
    case EndByte => Eof(())
    case Fields(p) => Packets.Seen(p, revision)
    case Table(tag, _, b) => if tag == 14 then ProfileEvents(ReloadBlock(b)) else Data(ReloadBlock(b))
  }

  function WireAll(ws: seq<Written>, revision: nat): Bytes
    requires forall i :: 0 <= i < |ws| ==> Sendable(ws[i])
  {
    if |ws| == 0 then [] else Wire(ws[0], revision) + WireAll(ws[1..], revision)
  }

  function SeenAll(ws: seq<Written>, revision: nat): (r: seq<Packet<()>>)
    requires forall i :: 0 <= i < |ws| ==> Sendable(ws[i])
    ensures |r| == |ws| && forall i :: 0 <= i < |ws| ==> r[i] == Seen(ws[i], revision)
  {
    if |ws| == 0 then [] else [Seen(ws[0], revision)] + SeenAll(ws[1..], revision)
  }

  lemma SeenAt(w: Written, info: Info, rest: Bytes)
    requires Sendable(w) && info.timezone.Some?
    ensures ReadPacket(Wire(w, info.revision) + rest, 0, info)
         == Ok(Seen(w, info.revision), |Wire(w, info.revision)|)
    ensures Learn(info, Seen(w, info.revision)) == info
  {
    hide ReadPacket, PacketBytes, DataPacket, WellFormedBlock, RecoverableColumns, ReloadBlock;
    var d := Wire(w, info.revision) + rest;
    FrontHolds(Wire(w, info.revision), rest);
    match w
    case PongByte | EndByte => BareAt(info, d, 0);
    case Fields(p) => PacketAt(p, info, d, 0);
    case Table(tag, table, b) => DataPacketAt(tag, table, b, info, d, 0);
  }

  /** Packets leave a stream as they were written, and change nothing that is known. */
  lemma {:induction false} PacketsReturn(ws: seq<Written>, info: Info, rest: Bytes)
    requires forall i :: 0 <= i < |ws| ==> Sendable(ws[i])
    requires info.timezone.Some?
    ensures TakePackets(WireAll(ws, info.revision) + rest, info, |ws|)
         == Some((SeenAll(ws, info.revision), rest, info))
  {
    hide ReadPacket, Sendable, Wire, Seen, Learn;
    if |ws| > 0 {
      var w, tail := ws[0], WireAll(ws[1..], info.revision) + rest;
      assert WireAll(ws, info.revision) + rest == Wire(w, info.revision) + tail;
      SeenAt(w, info, tail);
      FrontHolds(Wire(w, info.revision), tail);
      PacketsReturn(ws[1..], info, rest);
    } else {
      assert [] + rest == rest;
    }
  }

  /** A new connection reads a greeting, knows the server by then, and reads every packet that
      the server writes in the announced revision. */
  lemma ConversationReturns(s: ServerInfo, zones: set<Bytes>, ws: seq<Written>, rest: Bytes)
    requires WritableServer(s) && (s.revision >= 54058 ==> s.timezone in zones)
    requires forall i :: 0 <= i < |ws| ==> Sendable(ws[i])
    ensures TakePackets([0] + HelloBytes(s) + WireAll(ws, s.revision) + rest, Info(None, 0, zones), 1 + |ws|)
         == Some(([Hello((), Known(s))] + SeenAll(ws, s.revision), rest,
                  Info(Some(Known(s).timezone), s.revision, zones)))
  {
    hide ReadPacket, HelloBytes, WritableServer, Sendable, WireAll, SeenAll;
    var hello, tail := [0] + HelloBytes(s), WireAll(ws, s.revision) + rest;
    var info := Info(Some(Known(s).timezone), s.revision, zones);
    assert hello + WireAll(ws, s.revision) + rest == hello + tail;
    FrontHolds(hello, tail);
    HelloPacketAt(s, Info(None, 0, zones), hello + tail, 0);
    assert Learn(Info(None, 0, zones), Hello((), Known(s))) == info;
    assert ReadPacket(hello + tail, 0, Info(None, 0, zones)) == Ok(Hello((), Known(s)), |hello|);
    PacketsReturn(ws, info, rest);
  }

  lemma FrontHolds(a: Bytes, b: Bytes)
    ensures Holds(a + b, 0, a) && (a + b)[|a|..] == b
  {
  }

  // ----- the transport -----

  /** How a read from the socket ends after the pieces that are there. */
  datatype End = NoMore | Closed | Broken

  datatype Polled = Pending | EndOfStream | Item(packet: Packet<()>) | Failed(error: Error) | IoFailure

  function Verdict(r: Parsed<Packet<()>>): Polled {
    match r
    case Ok(p, _) => Item(p)
    case WouldBlock => Pending
    case Err(e, _) => Failed(e)
  }

  /** What a poll answers: the packet or error that is buffered; else what arrives decides. */
  function Expected(rd: Bytes, info: Info, incomplete: bool, done: bool, pieces: seq<Bytes>, end: End): Polled {
    if !incomplete && |rd| > 0 && !ReadPacket(rd, 0, info).WouldBlock? then Verdict(ReadPacket(rd, 0, info))
    else if done || end == Closed then EndOfStream
    else if end == Broken then IoFailure
    else Verdict(ReadPacket(rd + Flatten(pieces), 0, info))
  }

  class Receiver {
    var done: bool
    var rd: Bytes
    var bufIsIncomplete: bool
    var info: Info
    ghost const start: Info
    ghost var received: Bytes
    ghost var emitted: seq<Packet<()>>
    ghost var failed: bool        // a packet could not be parsed: its bytes are gone

    /** What has been received is what the emitted packets took, and the buffer. */
    ghost predicate Valid()
      reads this
    {
      !failed ==> TakePackets(received, start, |emitted|) == Some((emitted, rd, info))
    }

    constructor (zones: set<Bytes>)
      ensures Valid() && received == [] && emitted == [] && !failed && !done
      ensures start == Info(None, 0, zones) && info == start
    {
      done := false;
      rd := [];
      bufIsIncomplete := false;
      info := Info(None, FRESH_REVISION, zones);
      start := Info(None, FRESH_REVISION, zones);
      received := [];
      emitted := [];
      failed := false;
    }

    /** Parses from the start of the buffer. Only a whole packet, or an error, takes bytes
        out of it. */
    method TryParse() returns (r: Polled)
      requires Valid()
      modifies this`rd, this`info, this`emitted, this`failed
      ensures received == old(received)
      ensures match ReadPacket(old(rd), 0, old(info))
              case WouldBlock => r == Pending && rd == old(rd) && info == old(info)
                                 && emitted == old(emitted) && failed == old(failed)
              case Err(e, pos) => r == Failed(e) && rd == old(rd)[pos..] && info == old(info)
                                  && emitted == old(emitted) && failed
              case Ok(p, pos) => r == Item(p) && rd == old(rd)[pos..]
                                 && info == (if p.Hello?
                                             then Info(Some(p.server.timezone), p.server.revision, old(info).zones)
                                             else old(info))
                                 && emitted == old(emitted) + [p] && failed == old(failed)
      ensures !failed ==> TakePackets(received, start, |emitted|) == Some((emitted, rd, info))
    {
      hide ReadPacket, TakePackets;
      var cursor := new Reader(rd);
      var res := ParsePacket(cursor, info);
      match res
      case WouldBlock => return Pending;
      case Err(e, _) =>
        rd := rd[cursor.pos..];
        failed := true;
        return Failed(e);
      case Ok(p, _) =>
        if !failed { TakeNext(received, start, |emitted|); }
        info := Learn(info, p);
        rd := rd[cursor.pos..];
        emitted := emitted + [p];
        return Item(p);
    }

    /** Reads the pieces that are there. */
    method Fill(pieces: seq<Bytes>, end: End) returns (ok: bool)
      requires !done && (!failed ==> TakePackets(received, start, |emitted|) == Some((emitted, rd, info)))
      modifies this`rd, this`received, this`done
      ensures rd == old(rd) + Flatten(pieces) && received == old(received) + Flatten(pieces)
      ensures !failed ==> TakePackets(received, start, |emitted|) == Some((emitted, rd, info))
      ensures done == (end == Closed) && ok == (end != Broken)
    {
      hide TakePackets;
      assert pieces[..0] == [] && Flatten([]) == [];
      for i := 0 to |pieces|
        invariant rd == old(rd) + Flatten(pieces[..i]) && received == old(received) + Flatten(pieces[..i])
        invariant !failed ==> TakePackets(received, start, |emitted|) == Some((emitted, rd, info))
      {
        if !failed { TakeMore(received, pieces[i], start, |emitted|); }
        assert pieces[..i + 1] == pieces[..i] + [pieces[i]];
        FlattenAppend(pieces[..i], pieces[i]);
        rd := rd + pieces[i];
        received := received + pieces[i];
      }
      assert pieces[..|pieces|] == pieces;
      done := end == Closed;
      ok := end != Broken;
    }

    /** One poll of the stream. While the connection is open and no packet has failed to
        parse, a poll that finds no packet has emitted every packet there is. */
    method PollNext(pieces: seq<Bytes>, end: End) returns (r: Polled)
      requires Valid()
      modifies this
      ensures Valid()
      ensures r == Expected(old(rd), old(info), old(bufIsIncomplete), old(done), pieces, end)
      ensures var packet := ReadPacket(old(rd) + Flatten(pieces), 0, old(info));
        old(rd) == [] && !old(done) && end == NoMore && packet.Ok? ==> r == Item(packet.value)
      ensures var packet := ReadPacket(old(rd), 0, old(info));
        !old(bufIsIncomplete) && old(rd) != [] && packet.Ok? ==> r == Item(packet.value) && received == old(received)
      ensures old(rd) == [] && !old(done) ==> (r == IoFailure <==> end == Broken)
      ensures old(rd) == [] ==> (r == EndOfStream <==> old(done) || end == Closed)
      ensures received == old(received) || received == old(received) + Flatten(pieces)
      ensures r.Item? ==> emitted == old(emitted) + [r.packet]
      ensures !r.Item? ==> emitted == old(emitted)
      ensures failed == (old(failed) || r.Failed?)
      ensures r == Pending ==> ReadPacket(rd, 0, info).WouldBlock? && received == old(received) + Flatten(pieces)
      ensures r == Pending && !failed ==> emitted == DecodeAll(received, start)
      ensures !failed ==> emitted <= DecodeAll(received, start)
      ensures r == EndOfStream ==> done
      ensures done ==> old(done) || end == Closed
      ensures bufIsIncomplete == if r.Pending? then true else if r.Item? || r.Failed? then false
                                 else old(bufIsIncomplete)
    {
      hide ReadPacket, TakePackets, DecodeAll;
      if !bufIsIncomplete && |rd| > 0 {
        r := TryParse();
        if r != Pending {
          if !failed { TakenPrefix(received, start, |emitted|); }
          return;
        }
      }
      if !done {
        var ok := Fill(pieces, end);
        if !ok {
          if !failed { TakenPrefix(received, start, |emitted|); }
          return IoFailure;
        }
      }
      if !failed { TakenPrefix(received, start, |emitted|); }
      if done {
        return EndOfStream;
      }
      r := TryParse();
      bufIsIncomplete := r == Pending;
      if !failed {
        TakenPrefix(received, start, |emitted|);
        if r == Pending { TakenAll(received, start, |emitted|); }
      }
    }
  }

  // ----- the sending side -----

  datatype Sent = AllSent | Blocked | WriteFailed

  /** Queued commands and the buffer that is being written. */
  class Sender {
    var cmds: seq<Bytes>      // the commands, packed
    var wr: Bytes
    var wrPos: nat
    ghost var socket: Bytes   // what the socket took

    ghost predicate Valid()
      reads this
    {
      wrPos <= |wr|
    }

    /** Everything handed to the transport, in order. */
    ghost function Handed(): Bytes
      requires Valid()
      reads this
    {
      socket + wr[wrPos..] + Flatten(cmds)
    }

    constructor ()
      ensures Valid() && Handed() == [] && cmds == []
    {
      cmds := [];
      wr := [];
      wrPos := 0;
      socket := [];
    }

    method Call(cmd: Bytes)
      requires Valid()
      modifies this`cmds
      ensures Valid() && Handed() == old(Handed()) + cmd
    {
      FlattenAppend(cmds, cmd);
      cmds := cmds + [cmd];
    }

    /** Writes command after command; `takes` is how many bytes the socket takes each time
        it is ready. Nothing is lost or reordered, and the stream is ready to receive only
        when the socket has everything. */
    method Send(takes: seq<nat>, broken: bool) returns (r: Sent)
      requires Valid()
      modifies this
      ensures Valid() && Handed() == old(Handed()) && old(socket) <= socket
      ensures r == AllSent ==> socket == Handed() && cmds == []
      ensures |takes| > |old(cmds)| && Generous(takes, |old(Handed())|) ==> r == AllSent
      ensures r != AllSent ==> r == if broken then WriteFailed else Blocked
    {
      var i := 0;
      ghost var popped := 0;
      while true
        invariant Valid() && Handed() == old(Handed()) && i <= |takes| && old(socket) <= socket
        invariant popped + |cmds| == |old(cmds)|
        invariant Generous(takes, |old(Handed())|) ==> i <= popped || (i == popped + 1 && wrPos == |wr|)
        decreases |takes| - i, |cmds|
      {
        if wrPos == |wr| {
          if |cmds| == 0 {
            NoCommands(socket, wr);
            return AllSent;
          }
          assert Flatten(cmds) == cmds[0] + Flatten(cmds[1..]);
          NextCommand(socket, wr, cmds[0], Flatten(cmds[1..]));
          wr := cmds[0];
          wrPos := 0;
          cmds := cmds[1..];
          popped := popped + 1;
        }
        if i == |takes| {
          return if broken then WriteFailed else Blocked;
        }
        var n := if takes[i] <= |wr| - wrPos then takes[i] else |wr| - wrPos;
        Moved(socket, wr, wrPos, n, Flatten(cmds));
        socket := socket + wr[wrPos..wrPos + n];
        wrPos := wrPos + n;
        i := i + 1;
      }
    }
  }

  /** The socket takes `n` bytes whenever it is asked. */
  predicate Generous(takes: seq<nat>, n: nat) {
    forall i :: 0 <= i < |takes| ==> takes[i] >= n
  }

  lemma Moved(socket: Bytes, wr: Bytes, pos: nat, n: nat, rest: Bytes)
    requires pos + n <= |wr|
    ensures socket + wr[pos..] + rest == socket + wr[pos..pos + n] + wr[pos + n..] + rest
  {
    assert wr[pos..] == wr[pos..pos + n] + wr[pos + n..];
  }

  lemma NextCommand(socket: Bytes, wr: Bytes, cmd: Bytes, rest: Bytes)
    ensures socket + wr[|wr|..] + (cmd + rest) == socket + cmd[0..] + rest
  {
    assert wr[|wr|..] == [] && cmd[0..] == cmd;
  }

  lemma NoCommands(socket: Bytes, wr: Bytes)
    ensures socket + wr[|wr|..] + Flatten([]) == socket
  {
  }
}
