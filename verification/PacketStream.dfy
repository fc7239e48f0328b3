/** The stream of packets that answers one command, and who holds the transport. */
module PacketStream {
  import opened Bytes
  import opened BlockCodec
  import opened Packets

  datatype SendAnswer = Sent | SendPending | SendError
  datatype ReceiveAnswer = Got(packet: Packet<()>) | NotYet | Closed | Broken

  /** What the transport answers during one poll of the stream. */
  datatype Answer = Answer(send: SendAnswer, receive: ReceiveAnswer)

  datatype StreamState<+S> = Ask | Receive | Yield(packet: Option<Packet<S>>) | Done

  datatype Polled<+S> = Pending | Ended | Next(packet: Packet<S>) | Failed

  datatype Loaded<+S> = Read(transport: S, block: Option<Block>) | ServerError | IoError | Unexpected | Panic | Waiting

  class PacketStream<S> {
    var inner: Option<S>
    var state: StreamState<S>
    var readBlock: bool
    ghost const transport: S
    ghost var gone: bool      // the transport has been yielded or taken

    /** The transport is in the stream, or it is gone; between polls it is nowhere else. */
    ghost predicate Valid()
      reads this
    {
      (inner.Some? <==> !gone) && (inner.Some? ==> inner.value == transport)
      && (state.Yield? ==> state.packet == None)
    }

    /** `call`: the transport moves into the stream. */
    constructor (transport: S)
      ensures Valid() && state == Ask && !readBlock && !gone && this.transport == transport
    {
      inner := Some(transport);
      state := Ask;
      readBlock := false;
      this.transport := transport;
      gone := false;
    }

    method TakeTransport() returns (t: Option<S>)
      requires Valid()
      modifies this
      ensures Valid() && gone && readBlock == old(readBlock) && state == old(state)
      ensures t == if old(gone) then None else Some(transport)
    {
      t := inner;
      inner := None;
      gone := true;
    }

    function Rank(state: StreamState<S>): nat {
      match state case Ask => 2 case Yield(_) => 2 case Receive => 1 case Done => 0
    }

    /** One poll. A stream without a transport has ended for good; a stream that is done
        hands the transport out; else a packet is received. */
    method PollNext(a: Answer) returns (r: Polled<S>)
      requires Valid()
      modifies this
      ensures Valid() && readBlock == old(readBlock)
      // the transport leaves only inside a packet that carries it, and once
      ensures r.Next? && Carries(r.packet) ==> r.packet.transport == transport && !old(gone) && gone
      ensures !(r.Next? && Carries(r.packet)) ==> gone == old(gone)
      ensures old(gone) ==> r == Ended && state == Done
      ensures !old(gone) && old(state) == Done ==> r == Next(Eof(transport)) && state == Done
      ensures !old(gone) && old(state) != Done ==>
        if old(state) == Ask && a.send != Sent then
          r == (if a.send == SendError then Failed else Pending) && state == Ask
        else match a.receive
             case NotYet => r == Pending && state == Receive
             case Closed => r == Ended && state == Receive
             case Broken => r == Failed && state == Receive
             case Got(p) => r == Next(Bind(p, Some(transport)))
                            && state == (if readBlock && p.Data? then Done else Yield(None))
    {
      while true
        invariant Valid() && readBlock == old(readBlock) && gone == old(gone)
        invariant state == old(state) || (!state.Ask? && (state == Receive || (state == Done && gone)))
        invariant old(state) == Ask && state != Ask && !gone ==> a.send == Sent
        invariant old(state) == Done ==> state == Done
        decreases Rank(state)
      {
        var package: Option<Packet<S>> := None;
        match state {
          case Ask =>
            if inner.None? {
              state := Done;
            } else {
              if a.send == SendError {
                return Failed;
              }
              if a.send == SendPending {
                return Pending;
              }
              state := Receive;
            }
          case Receive =>
            if inner.None? {
              state := Done;
            } else {
              match a.receive {
                case NotYet => return Pending;
                case Broken => return Failed;
                case Closed => return Ended;
                case Got(p) =>
                  package := Some(Bind(p, inner));
                  if Carries(p) {
                    inner := None;
                    gone := true;
                  }
                  state := Yield(None);
              }
            }
          case Yield(_) => state := Receive;
          case Done =>
            if inner.Some? {
              r := Next(Eof(inner.value));
              inner := None;
              gone := true;
              return;
            }
            return Ended;
        }
        if readBlock && package.Some? && package.value.Data? {
          state := Done;
        }
        if package.Some? {
          return Next(package.value);
        }
      }
    }

    /** What `read_block` makes of the answers of the transport: the packets up to the
        block, or to the end of the stream. */
    static ghost function ReadOutcome(answers: seq<Answer>, asked: bool, transport: S): Loaded<S>
      decreases |answers|
    {
      if |answers| == 0 then Waiting
      else
        var rest := answers[1..];
        if !asked && answers[0].send == SendError then IoError
        else if !asked && answers[0].send == SendPending then ReadOutcome(rest, false, transport)
        else
          match answers[0].receive
          case NotYet => ReadOutcome(rest, true, transport)
          case Closed => Panic
          case Broken => IoError
          case Got(p) =>
            if p.Data? then Read(transport, Some(p.block))
            else if p.Eof? then Read(transport, None)
            else if p.Exception? then ServerError
            else if p.Pong? || p.Hello? then Unexpected
            else ReadOutcome(rest, true, transport)
    }

    /** A packet that `read_block` passes over, or no packet yet. */
    static predicate Passed(a: ReceiveAnswer) {
      match a
      case NotYet => true
      case Got(p) => p.Progress? || p.ProfileInfo? || p.TableColumns? || p.ProfileEvents?
      case Closed | Broken => false
    }

    /** While the command cannot be sent, nothing is received. */
    static lemma Unsent(answers: seq<Answer>, transport: S)
      requires |answers| > 0 && answers[0].send != Sent
      ensures ReadOutcome(answers, false, transport)
           == if answers[0].send == SendError then IoError else ReadOutcome(answers[1..], false, transport)
    {
    }

    /** From there on the first answer that is not passed over decides. */
    static lemma {:induction false} FirstDecides(answers: seq<Answer>, n: nat, asked: bool, transport: S)
      requires n < |answers| && (asked || answers[0].send == Sent)
      requires forall i :: 0 <= i < n ==> Passed(answers[i].receive)
      ensures var a, r := answers[n].receive, ReadOutcome(answers, asked, transport);
        match a
        case Closed => r == Panic
        case Broken => r == IoError
        case NotYet => n == |answers| - 1 ==> r == Waiting
        case Got(p) =>
          (p.Data? ==> r == Read(transport, Some(p.block))) && (p.Eof? ==> r == Read(transport, None))
          && (p.Exception? ==> r == ServerError) && (p.Pong? || p.Hello? ==> r == Unexpected)
          && (Passed(a) && n == |answers| - 1 ==> r == Waiting)
      decreases n
    {
      if n > 0 {
        FirstDecides(answers[1..], n - 1, true, transport);
      } else if |answers| == 1 {
        assert answers[1..] == [];
      }
    }

    /** Reads to the block; a block is always followed by the transport, and nothing after
        it. It panics exactly when the connection closes before a block or the end. */
    method ReadBlock(answers: seq<Answer>) returns (r: Loaded<S>)
      requires Valid() && !gone && state == Ask
      modifies this
      ensures Valid() && r == ReadOutcome(answers, false, transport)
      ensures r.Read? ==> gone && state == Done
    {
      readBlock := true;
      var h: Option<S> := None;
      var b: Option<Block> := None;
      var i := 0;
      while true
        invariant Valid() && readBlock && i <= |answers|
        invariant gone ==> h == Some(transport) && ReadOutcome(answers, false, transport) == Read(transport, b)
        invariant !gone ==> h == None
        invariant !gone && state == Done ==> b.Some? && ReadOutcome(answers, false, transport) == Read(transport, b)
        invariant !gone && state != Done ==>
          b == None && ReadOutcome(answers, false, transport) == ReadOutcome(answers[i..], state != Ask, transport)
        decreases if gone then 0 else 1, if state == Done then 0 else 1, |answers| - i
      {
        var a := Answer(Sent, NotYet);
        if inner.Some? && state != Done {
          if i == |answers| {
            return Waiting;
          }
          a := answers[i];
          assert answers[i..][0] == a && answers[i..][1..] == answers[i + 1..];
          i := i + 1;
        }
        var next := PollNext(a);
        match next
        case Pending =>
        case Failed => return IoError;
        case Ended =>
          if h.None? {
            return Panic;
          }
          return Read(h.value, b);
        case Next(p) =>
          match p {
            case Eof(t) => h := Some(t);
            case Data(block) => b := Some(block);
            case Exception(_, _, _, _) => return ServerError;
            case Hello(_, _) => return Unexpected;
            case Pong(_) => return Unexpected;
            case _ =>
          }
      }
    }
  }
}
