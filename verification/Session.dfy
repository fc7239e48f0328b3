/** A client handle against a server that answers commands in order: which packets a ping,
    an execution or a block stream consumes, and what becomes of the packets that a stream
    dropped midway leaves behind. */
module Session {
  import opened Bytes

  /** Packets, as far as they matter here: the last two end the answer to a query. */
  datatype Kind = Block | Progress | Columns | Pong | Exception | EndOfStream

  /** A packet on its way, and the number of the command it answers. */
  datatype Tagged = Tagged(id: nat, kind: Kind)

  /** A transport with the packets the server has sent or will send. A cancelled query has
      a shorter answer; the answers are arbitrary, so that needs no case of its own. */
  datatype Conn = Conn(inconsistent: bool, wire: seq<Tagged>)

  predicate Final(k: Kind) { k == Exception || k == EndOfStream }

  predicate Inner(k: Kind) { k == Block || k == Progress || k == Columns }

  /** The answer to a query, or what is left of it. */
  predicate Answer(ks: seq<Kind>) {
    |ks| > 0 && Final(ks[|ks| - 1]) && forall i :: 0 <= i < |ks| - 1 ==> Inner(ks[i])
  }

  /** An answer that an execution reads to its end. */
  predicate Successful(ks: seq<Kind>) {
    |ks| > 0 && ks[|ks| - 1] == EndOfStream
    && forall i :: 0 <= i < |ks| - 1 ==> ks[i] == Block || ks[i] == Progress
  }

  /** The packets behind leading progress reports. */
  function SkipProgress(w: seq<Tagged>): seq<Tagged> {
    if |w| > 0 && w[0].kind == Progress then SkipProgress(w[1..]) else w
  }

  function Tag(id: nat, ks: seq<Kind>): (w: seq<Tagged>)
    ensures |w| == |ks| && forall i :: 0 <= i < |ks| ==> w[i] == Tagged(id, ks[i])
  {
    if |ks| == 0 then [] else Tag(id, ks[..|ks| - 1]) + [Tagged(id, ks[|ks| - 1])]
  }

  /** What is left of the answer to command `id`. */
  predicate Remainder(w: seq<Tagged>, id: nat) {
    |w| > 0 && Final(w[|w| - 1].kind)
    && (forall i :: 0 <= i < |w| ==> w[i].id == id)
    && forall i :: 0 <= i < |w| - 1 ==> Inner(w[i].kind)
  }

  /** The flag says whether there are unread packets. */
  predicate Consistent(c: Conn) {
    if c.inconsistent then |c.wire| > 0 && Remainder(c.wire, c.wire[0].id) else c.wire == []
  }

  /** Commands are numbered in the order they are sent, on whatever transport. */
  predicate Before(c: Conn, id: nat) {
    forall i :: 0 <= i < |c.wire| ==> c.wire[i].id < id
  }

  /** Transports that the pool may hand out. */
  predicate Usable(handles: seq<Option<Conn>>, id: nat) {
    forall i :: 0 <= i < |handles| && handles[i].Some? ==> Consistent(handles[i].value) && Before(handles[i].value, id)
  }

  /** Every packet was read by the command it was sent for. */
  predicate Matched(consumed: seq<(nat, nat)>) {
    forall i :: 0 <= i < |consumed| ==> consumed[i].0 == consumed[i].1
  }

  lemma MatchedMore(consumed: seq<(nat, nat)>, id: nat)
    requires Matched(consumed)
    ensures Matched(consumed + [(id, id)])
  {
  }

  predicate Harmless(reply: seq<Kind>, n: nat)
    requires n <= |reply|
  {
    forall i :: 0 <= i < n ==> reply[i] == Block || reply[i] == Progress
  }

  /** How many blocks and progress reports the answer begins with. */
  function Quiet(reply: seq<Kind>): (n: nat)
    ensures n <= |reply|
  {
    if |reply| == 0 || (reply[0] != Block && reply[0] != Progress) then 0 else 1 + Quiet(reply[1..])
  }

  /** What becomes of an execution when `alive` packets of the answer arrive: the first one
      that is neither a block nor progress decides, or the way the connection ends. */
  function Verdict(reply: seq<Kind>, alive: nat, end: End): Outcome
    requires Answer(reply)
  {
    var n := Quiet(reply);
    if n < alive && n < |reply| then (if reply[n] == EndOfStream then Done else Failed)
    else if end == Closed then Panicked
    else Failed
  }

  lemma {:induction false} QuietIs(reply: seq<Kind>, n: nat)
    requires n < |reply| && Harmless(reply, n)
    ensures Quiet(reply) >= n
    ensures reply[n] != Block && reply[n] != Progress ==> Quiet(reply) == n
  {
    if n > 0 {
      assert reply[0] == Block || reply[0] == Progress;
      assert forall i :: 0 <= i < n - 1 ==> reply[1..][i] == reply[i + 1];
      QuietIs(reply[1..], n - 1);
    }
  }

  /** What packet `n` of an answer decides. */
  lemma Decisive(reply: seq<Kind>, n: nat, alive: nat)
    requires Answer(reply) && n < |reply| && Harmless(reply, n) && n <= alive
    ensures reply[n] == Block || reply[n] == Progress ==> n + 1 < |reply| && Harmless(reply, n + 1)
    ensures n < alive && reply[n] == EndOfStream ==> n + 1 == |reply| && Successful(reply)
    ensures n < alive && (reply[n] == Columns || reply[n] == Exception || reply[n] == Pong) ==>
              !Successful(reply) && (alive < |reply| ==> !Harmless(reply, alive))
    ensures n < alive && reply[n] != Block && reply[n] != Progress ==>
              forall end :: Verdict(reply, alive, end) == if reply[n] == EndOfStream then Done else Failed
    ensures n == alive ==> forall end :: Verdict(reply, alive, end) == if end == Closed then Panicked else Failed
  {
    QuietIs(reply, n);
  }

  lemma NothingRead(reply: seq<Kind>)
    ensures Harmless(reply, 0)
  {
  }

  lemma EmptyWire(id: nat)
    ensures Consistent(FRESH) && Before(FRESH, id)
  {
  }

  /** Nothing is unread, or what is unread arrives and ends without an exception. */
  predicate Drainable(c: Conn, alive: nat) {
    c.wire == [] || (|c.wire| <= alive && c.wire[|c.wire| - 1].kind == EndOfStream)
  }

  const FRESH := Conn(false, [])

  // ----- checking a connection -----

  /** Whether a ping on a transport succeeds: what is unread drains, and the pong arrives. */
  predicate Answers(conn: Option<Conn>, ping: (nat, bool)) {
    conn.Some? && Drainable(conn.value, ping.0) && ping.1
  }

  /** What a check comes to, from a ping on: `left` more reconnects may fail. Beside the
      answer, how the handle is bound then. */
  function Probed(conn: Option<Conn>, bound: Binding, pings: seq<(nat, bool)>, handles: seq<Option<Conn>>, left: nat):
      (Check, Binding)
    decreases |handles|, 1
  {
    if |pings| == 0 then (StillTrying, bound)
    else if Answers(conn, pings[0]) then (Healthy, Attached)
    else if left == 0 then (Unhealthy, bound)
    else Reopened(bound, pings[1..], handles, left)
  }

  /** The same from a reconnect on. */
  function Reopened(bound: Binding, pings: seq<(nat, bool)>, handles: seq<Option<Conn>>, left: nat): (Check, Binding)
    decreases |handles|, 0
  {
    if |handles| == 0 then (StillTrying, bound)
    else if handles[0].Some? then Probed(handles[0], Attached, pings, handles[1..], left)
    else if left == 0 then (Unhealthy, bound)
    else Reopened(bound, pings, handles[1..], left - 1)
  }

  /** How many of the first `n` reconnects succeed. */
  function Opens(handles: seq<Option<Conn>>, n: nat): (k: nat)
    requires n <= |handles|
    ensures k <= n
    ensures n > 0 && handles[n - 1].Some? ==> k > 0
  {
    if n == 0 then 0 else (if handles[0].Some? then 1 else 0) + Opens(handles[1..], n - 1)
  }

  /** The n-th reconnect gives a transport that answers its ping, at most `left` reconnects
      fail before, and fewer than that before each transport that was given up. */
  predicate Wins(pings: seq<(nat, bool)>, handles: seq<Option<Conn>>, left: nat, n: nat) {
    0 < n <= |handles| && handles[n - 1].Some?
    && Opens(handles, n) <= |pings| && Answers(handles[n - 1], pings[Opens(handles, n) - 1])
    && n - Opens(handles, n) <= left
    && forall m :: 0 < m < n && handles[m - 1].Some? ==> m - Opens(handles, m) < left
  }

  lemma WinsOpen(pings: seq<(nat, bool)>, handles: seq<Option<Conn>>, left: nat, n: nat)
    requires n > 1 && |handles| > 0 && handles[0].Some? && |pings| > 0
    ensures Wins(pings, handles, left, n) <==> left > 0 && Wins(pings[1..], handles[1..], left, n - 1)
  {
    if left > 0 && Wins(pings[1..], handles[1..], left, n - 1) {
      forall m | 0 < m < n && handles[m - 1].Some? ensures m - Opens(handles, m) < left {
        if m > 1 { assert handles[1..][m - 2].Some?; }
      }
    }
    if Wins(pings, handles, left, n) {
      assert 1 - Opens(handles, 1) < left;
      forall m | 0 < m < n - 1 && handles[1..][m - 1].Some? ensures m - Opens(handles[1..], m) < left {
        assert handles[m].Some? && m + 1 - Opens(handles, m + 1) < left;
      }
    }
  }

  lemma WinsFail(pings: seq<(nat, bool)>, handles: seq<Option<Conn>>, left: nat, n: nat)
    requires |handles| > 0 && handles[0].None? && n > 0
    ensures Wins(pings, handles, left, n) <==> left > 0 && Wins(pings, handles[1..], left - 1, n - 1)
  {
    if left > 0 && Wins(pings, handles[1..], left - 1, n - 1) {
      forall m | 0 < m < n && handles[m - 1].Some? ensures m - Opens(handles, m) < left {
        assert handles[1..][m - 2].Some?;
      }
    }
    if Wins(pings, handles, left, n) {
      forall m | 0 < m < n - 1 && handles[1..][m - 1].Some? ensures m - Opens(handles[1..], m) < left - 1 {
        assert handles[m].Some? && m + 1 - Opens(handles, m + 1) < left;
      }
    }
  }

  lemma {:induction false} ReopenedExactly(bound: Binding, pings: seq<(nat, bool)>, handles: seq<Option<Conn>>,
        left: nat)
    ensures Reopened(bound, pings, handles, left).0 == Healthy <==> exists n: nat :: Wins(pings, handles, left, n)
    ensures Reopened(bound, pings, handles, left).0 == Unhealthy ==> |handles| - Opens(handles, |handles|) >= left
    decreases |handles|
  {
    if |handles| > 0 {
      var rest := handles[1..];
      if handles[0].None? {
        if left > 0 {
          var less := left - 1;
          ReopenedExactly(bound, pings, rest, less);
          if n: nat :| Wins(pings, rest, less, n) { WinsFail(pings, handles, left, n + 1); }
        }
        if n: nat :| Wins(pings, handles, left, n) { WinsFail(pings, handles, left, n); }
      } else if |pings| > 0 {
        assert Opens(handles, 1) == 1 + Opens(rest, 0);
        if Answers(handles[0], pings[0]) {
          assert Wins(pings, handles, left, 1);
        } else {
          if left > 0 {
            ReopenedExactly(Attached, pings[1..], rest, left);
            if n: nat :| Wins(pings[1..], rest, left, n) { WinsOpen(pings, handles, left, n + 1); }
          }
          if n: nat :| Wins(pings, handles, left, n) {
            if n > 1 { WinsOpen(pings, handles, left, n); }
          }
        }
      }
    }
  }

  /** A check ends well if and only if the transport of the handle answers its ping, or one of
      a later reconnect does before too many reconnects have failed. It gives up only after as
      many failed reconnects as it may repeat. */
  lemma ProbedExactly(conn: Option<Conn>, bound: Binding, pings: seq<(nat, bool)>, handles: seq<Option<Conn>>,
        attempts: nat)
    ensures Probed(conn, bound, pings, handles, attempts).0 == Healthy
       <==> |pings| > 0
            && (Answers(conn, pings[0]) || (attempts > 0 && exists n: nat :: Wins(pings[1..], handles, attempts, n)))
    ensures Probed(conn, bound, pings, handles, attempts).0 == Unhealthy ==>
              |handles| - Opens(handles, |handles|) >= attempts
  {
    if |pings| > 0 { ReopenedExactly(bound, pings[1..], handles, attempts); }
  }

  /** How a connection is lost. */
  datatype End = Closed | Broken

  /** The pool of a handle; a handle that was never in one has none. */
  datatype Binding = NoPool | Attached | Detached

  datatype Check = Healthy | Unhealthy | StillTrying | CheckPanic

  datatype Outcome = Done | Failed | Panicked

  datatype Opened = Stream(stream: BlockStream) | Refused | OpenPanic

  datatype StreamState = Reading | Finished | Error

  datatype NextBlock = BlockRead | NoMoreBlocks | StreamError

  class Client {
    const pingBefore: bool
    const maxAttempts: nat
    var inner: Option<Conn>
    var binding: Binding
    var nextId: nat
    ghost var consumed: seq<(nat, nat)>     // command, and number on the packet it read
    ghost var drained: seq<Tagged>          // packets read by `clear`

    /** Every command has read its own packets only. */
    ghost predicate Valid()
      reads this
    {
      (inner.Some? ==> Consistent(inner.value) && Before(inner.value, nextId))
      && Matched(consumed)
    }

    constructor (pingBefore: bool, maxAttempts: nat, binding: Binding)
      ensures Valid() && inner == Some(FRESH) && this.pingBefore == pingBefore && this.binding == binding
    {
      this.binding := binding;
      this.pingBefore := pingBefore;
      this.maxAttempts := maxAttempts;
      inner := Some(FRESH);
      nextId := 0;
      consumed := [];
      drained := [];
    }

    /** `clear` reads what a dropped stream left, up to the end of the old answer. It gives
        the transport back only when the end came without an exception and before the
        connection broke (`alive` packets from now); else the transport is dropped. */
    method Clear(c: Conn, alive: nat) returns (r: Option<Conn>)
      requires Consistent(c)
      modifies this`drained
      ensures r.Some? ==> r.value == FRESH && drained == old(drained) + c.wire
      ensures r.Some? <==> Drainable(c, alive)
    {
      if !c.inconsistent {
        return Some(c);
      }
      var wire := c.wire;
      var i := 0;
      while true
        invariant i <= |c.wire| && i <= alive && wire == c.wire[i..] && |wire| > 0
        invariant drained == old(drained) + c.wire[..i]
        decreases |wire|
      {
        if i == alive {
          return None;
        }
        var p := wire[0];
        assert c.wire[..i + 1] == c.wire[..i] + [p];
        drained := drained + [p];
        wire := wire[1..];
        i := i + 1;
        if p.kind == Pong || p.kind == EndOfStream {
          assert i == |c.wire| && c.wire[..i] == c.wire;
          return Some(Conn(false, wire));
        } else if p.kind == Exception {
          return None;
        }
      }
    }

    /** `ping`: the pong it reads is its own. On failure the transport is gone. */
    method Ping(alive: nat, aliveToPong: bool) returns (ok: bool)
      requires Valid()
      modifies this`inner, this`nextId, this`consumed, this`drained
      ensures Valid() && ok == inner.Some? && (ok ==> inner == Some(FRESH))
      ensures ok <==> old(inner).Some? && Drainable(old(inner).value, alive) && aliveToPong
      ensures nextId >= old(nextId) && old(consumed) <= consumed
    {
      if inner.None? {
        return false;
      }
      var transport := inner.value;
      inner := None;
      var cleared := Clear(transport, alive);
      if cleared.None? {
        return false;
      }
      var id := nextId;
      nextId := nextId + 1;
      var wire := cleared.value.wire + [Tagged(id, Pong)];
      if !aliveToPong {
        return false;
      }
      var p := wire[0];
      wire := wire[1..];
      consumed := consumed + [(id, p.id)];
      if p.kind != Pong {
        return false;
      }
      inner := Some(Conn(cleared.value.inconsistent, wire));
      return true;
    }

    /** `check_connection`: detaches the handle, which panics unless it is attached, pings,
        and replaces the handle after a failed ping by one from the pool. That one may have
        unread packets. A failed reconnect counts as an attempt, a successful one does not.
        `pings` and `handles` are what the network and the pool answer in turn. */
    method CheckConnection(pings: seq<(nat, bool)>, handles: seq<Option<Conn>>) returns (r: Check)
      requires Valid() && Usable(handles, nextId)
      modifies this
      ensures Valid() && (r == CheckPanic <==> old(binding) != Attached)
      ensures (r, binding) == if old(binding) == Attached
                              then Probed(old(inner), Detached, pings, handles, maxAttempts)
                              else (CheckPanic, NoPool)
      ensures r == Healthy ==> inner == Some(FRESH) && binding == Attached
      ensures r == Unhealthy ==> inner == None
      ensures nextId >= old(nextId) && old(consumed) <= consumed
    {
      if binding != Attached {
        binding := NoPool;
        return CheckPanic;
      }
      binding := Detached;
      var attempt := 0;
      var skipCheck := false;
      var i, j := 0, 0;
      while true
        invariant Valid() && i <= |pings| && j <= |handles| && nextId >= old(nextId) && old(consumed) <= consumed
        invariant attempt <= maxAttempts && (skipCheck ==> inner == None)
        invariant Probed(old(inner), Detached, pings, handles, maxAttempts)
               == if skipCheck then Reopened(binding, pings[i..], handles[j..], maxAttempts - attempt)
                  else Probed(inner, binding, pings[i..], handles[j..], maxAttempts - attempt)
        decreases |handles| - j, |pings| - i
      {
        if skipCheck {
          skipCheck := false;
        } else {
          if i == |pings| {
            return StillTrying;
          }
          var ok := Ping(pings[i].0, pings[i].1);
          i := i + 1;
          if ok {
            binding := Attached;
            return Healthy;
          }
          if attempt >= maxAttempts {
            return Unhealthy;
          }
        }
        if j == |handles| {
          return StillTrying;
        }
        var handle := handles[j];
        j := j + 1;
        if handle.Some? {
          inner := handle;
          binding := Attached;
        } else {
          skipCheck := true;
          if attempt >= maxAttempts {
            return Unhealthy;
          }
          attempt := attempt + 1;
        }
      }
    }

    /** `execute`: clears, sends and reads to the end; every packet it reads is its own.
        With a ping before the query it panics or fails with the check; without one it fails on
        a handle without a transport or with packets that cannot be drained. Else the answer
        decides. */
    method Execute(pings: seq<(nat, bool)>, handles: seq<Option<Conn>>, alive: nat, reply: seq<Kind>,
          aliveToEnd: nat, end: End)
      returns (r: Outcome)
      requires Valid() && Answer(reply) && Usable(handles, nextId)
      modifies this
      ensures Valid() && (r == Done ==> inner == Some(FRESH))
      ensures var check := if !pingBefore then Healthy
                           else if old(binding) != Attached then CheckPanic
                           else Probed(old(inner), Detached, pings, handles, maxAttempts).0;
        r == (if check == CheckPanic then Panicked
              else if check != Healthy then Failed
              else if !pingBefore && (old(inner).None? || !Drainable(old(inner).value, alive)) then Failed
              else Verdict(reply, aliveToEnd, end))
        && (check == Healthy && r != Done ==> inner == None)
      ensures !pingBefore ==> binding == old(binding)
      ensures old(consumed) <= consumed && (r == Done ==> |consumed| >= |old(consumed)| + |reply|)
    {
      if pingBefore {
        var check := CheckConnection(pings, handles);
        if check == CheckPanic {
          return Panicked;
        }
        if check != Healthy {
          return Failed;
        }
      }
      if inner.None? {
        return Failed;
      }
      var transport := inner.value;
      inner := None;
      var cleared := Clear(transport, alive);
      if cleared.None? {
        return Failed;
      }
      r := SendAndRead(cleared.value, reply, aliveToEnd, end);
    }

    /** Sends the query and reads to the end of its answer. When the connection is closed
        before anything but blocks and progress has come, the transport is unwrapped from
        nothing: a panic. */
    method SendAndRead(transport: Conn, reply: seq<Kind>, aliveToEnd: nat, end: End) returns (r: Outcome)
      requires Valid() && Answer(reply) && transport == FRESH && inner.None?
      modifies this`inner, this`nextId, this`consumed
      ensures Valid() && inner == if r == Done then Some(FRESH) else None
      ensures r == Verdict(reply, aliveToEnd, end)
      ensures r == Done <==> |reply| <= aliveToEnd && Successful(reply)
      ensures r == Panicked <==> end == Closed && aliveToEnd < |reply| && Harmless(reply, aliveToEnd)
      ensures old(consumed) <= consumed && (r == Done ==> |consumed| == |old(consumed)| + |reply|)
    {
      var id := nextId;
      nextId := nextId + 1;
      var answer := transport.wire + Tag(id, reply);
      assert answer == Tag(id, reply);
      hide Answer, Successful, Consistent, Before, Matched, Harmless, Tag;
      EmptyWire(nextId);
      NothingRead(reply);
      var n := 0;
      while true
        invariant n <= aliveToEnd && n < |answer| && Valid() && inner.None?
        invariant Harmless(reply, n)
        invariant old(consumed) <= consumed && |consumed| == |old(consumed)| + n
        decreases |answer| - n
      {
        Decisive(reply, n, aliveToEnd);
        if n == aliveToEnd {
          return if end == Closed then Panicked else Failed;
        }
        var p := answer[n];
        assert p == Tagged(id, reply[n]);
        MatchedMore(consumed, id);
        n := n + 1;
        consumed := consumed + [(id, p.id)];
        if p.kind == EndOfStream {
          assert answer[n..] == [];
          inner := Some(Conn(transport.inconsistent, answer[n..]));
          return Done;
        } else if p.kind != Block && p.kind != Progress {
          return Failed;
        }
      }
    }

    /** `stream_all_blocks`: the handle is detached, which panics unless it is attached, and
        the transport is not cleared. With a ping before the query, or a transport without
        unread packets, the stream reads its own answer; else the next packet it reads is one
        of an older answer. */
    method StreamBlocks(pings: seq<(nat, bool)>, handles: seq<Option<Conn>>, reply: seq<Kind>) returns (r: Opened)
      requires Valid() && Answer(reply) && Usable(handles, nextId)
      modifies this
      ensures Valid() && (r == OpenPanic <==> old(binding) != Attached)
      ensures old(binding) == Attached ==>
                (r.Stream? <==> if pingBefore
                                then Probed(old(inner), Detached, pings, handles, maxAttempts).0 == Healthy
                                else old(inner).Some?)
      ensures r.Stream? ==> inner == None && binding == Detached && old(binding) == Attached
      ensures r.Stream? ==> fresh(r.stream) && r.stream.client == this && r.stream.state == Reading
      ensures r.Stream? ==> r.stream.transport.Some? && |r.stream.transport.value.wire| > 0
      ensures r.Stream? && (pingBefore || !old(inner).value.inconsistent) ==> r.stream.Valid()
      ensures r.Stream? && !pingBefore && old(inner).value.inconsistent ==>
                r.stream.transport.value.wire[0].id < r.stream.id
    {
      if pingBefore {
        var check := CheckConnection(pings, handles);
        if check == CheckPanic {
          return OpenPanic;
        }
        if check != Healthy {
          return Refused;
        }
      }
      if binding != Attached {
        binding := NoPool;
        return OpenPanic;
      }
      binding := Detached;
      if inner.None? {
        return Refused;
      }
      var transport := inner.value;
      inner := None;
      var id := nextId;
      nextId := nextId + 1;
      var s := new BlockStream(this, id, transport.(wire := transport.wire + Tag(id, reply)));
      return Stream(s);
    }
  }

  lemma {:induction false} SkipRemainder(w: seq<Tagged>, id: nat)
    requires Remainder(w, id)
    ensures 0 < |SkipProgress(w)| <= |w| && |w| > 0
    ensures Remainder(SkipProgress(w), id) && SkipProgress(w)[0].kind != Progress
    ensures w[0].id == id && if Final(w[0].kind) then w[1..] == [] else Inner(w[0].kind) && Remainder(w[1..], id)
    ensures w[0].kind == Progress ==> SkipProgress(w) == SkipProgress(w[1..])
    ensures w[0].kind != Progress ==> SkipProgress(w) == w
  {
    if w[0].kind == Progress { SkipRemainder(w[1..], id); }
  }

  /** `BlockStream`: the transport is in the stream, in the handle, or dropped. */
  class BlockStream {
    const client: Client
    const id: nat
    var transport: Option<Conn>
    var state: StreamState

    /** While the stream reads, the handle is detached and what is on the wire is the rest of
        the stream's own answer. */
    ghost predicate Valid()
      reads this, client
    {
      client.Valid() && id < client.nextId
      && (state == Reading ==> client.binding == Detached)
      && (state == Reading || transport.Some? ==> client.inner == None)
      && (state == Reading && transport.Some? ==> !transport.value.inconsistent && Remainder(transport.value.wire, id))
    }

    constructor (client: Client, id: nat, transport: Conn)
      ensures this.client == client && this.id == id && this.transport == Some(transport) && state == Reading
    {
      this.client := client;
      this.id := id;
      this.transport := Some(transport);
      state := Reading;
    }

    /** `poll_next`, until the connection is lost after `alive` packets. Every packet the
        stream reads is its own: progress is passed over, a block is yielded, and at the end
        of the answer the handle gets the transport back with nothing unread and is attached.
        A closed connection is an error for good, a broken one leaves the stream reading. */
    method Next(alive: nat, end: End) returns (r: NextBlock)
      requires Valid()
      modifies this, client
      ensures Valid()
      ensures old(state) == Finished ==> r == NoMoreBlocks && state == Finished && client.inner == old(client.inner)
      ensures old(state) == Error || (old(state) == Reading && old(transport).None?) ==>
                r == StreamError && state == Error
      ensures old(state) == Reading && old(transport).Some? ==>
        var rest := SkipProgress(old(transport).value.wire);
        rest != [] && if |old(transport).value.wire| - |rest| >= alive then
          r == StreamError && transport.Some? && state == if end == Closed then Error else Reading
        else
          match rest[0].kind
          case Block => r == BlockRead && state == Reading && transport == Some(Conn(false, rest[1..]))
          case EndOfStream =>
            r == NoMoreBlocks && state == Finished && transport == None
            && client.inner == Some(FRESH) && client.binding == Attached
          case Exception => r == StreamError && state == Finished && client.inner == None && client.binding == Detached
          case _ => r == StreamError && state == Reading && transport == Some(Conn(false, rest[1..]))
    {
      hide Remainder, SkipProgress;
      var n := 0;
      ghost var wire0 := if transport.Some? then transport.value.wire else [];
      while true
        invariant Valid() && n <= alive
        invariant old(state) != Reading ==> state == old(state) && client.inner == old(client.inner)
        invariant old(state) == Reading && old(transport).None? ==> state == Reading && transport.None?
        invariant old(state) == Reading && old(transport).Some? ==>
          if state == Reading then
            transport.Some? && |transport.value.wire| == |wire0| - n
            && SkipProgress(transport.value.wire) == SkipProgress(wire0)
          else
            state == Finished && transport.None? && client.inner == Some(FRESH) && client.binding == Attached
            && SkipProgress(wire0) != [] && |SkipProgress(wire0)| > |wire0| - alive
            && SkipProgress(wire0)[0].kind == EndOfStream
        decreases state == Reading, alive - n
      {
        if state == Finished {
          return NoMoreBlocks;
        }
        if state == Error {
          return StreamError;
        }
        if transport.None? {
          state := Error;
          return StreamError;
        }
        SkipRemainder(transport.value.wire, id);
        if n == alive {
          if end == Closed {
            state := Error;
          }
          return StreamError;
        }
        n := n + 1;
        var c := transport.value;
        var p := c.wire[0];
        client.consumed := client.consumed + [(id, p.id)];
        transport := Some(c.(wire := c.wire[1..]));
        match p.kind {
          case EndOfStream =>
            client.inner := transport;
            transport := None;
            client.binding := Attached;
            state := Finished;
          case Exception =>
            state := Finished;
            return StreamError;
          case Block => return BlockRead;
          case Progress =>
          case _ => return StreamError;
        }
      }
    }

    /** Dropped while it reads, the stream attaches the handle and gives the transport back
        with the unread packets marked; `clear` drains them before the next command that
        clears. After an exception, or an error that closed the connection, the transport is
        dropped with the stream, and its packets with it. */
    method Drop()
      requires Valid()
      modifies this, client
      ensures client.Valid() && transport == None
      ensures client.inner == if old(state) == Reading && old(transport).Some?
                              then Some(Conn(true, old(transport).value.wire)) else old(client.inner)
      ensures client.binding == if old(state) == Reading then Attached else old(client.binding)
      ensures old(state) == Error && old(transport).Some? ==> client.inner == None
      ensures client.inner.Some? && client.inner.value.inconsistent && old(state) == Reading ==>
                Remainder(client.inner.value.wire, id)
    {
      if state == Reading {
        if client.binding != Attached {
          client.binding := Attached;
        }
        if transport.Some? {
          client.inner := Some(transport.value.(inconsistent := true));
        }
      }
      transport := None;
    }
  }

  /** After an exception the handle stays detached, and the next stream it opens panics. */
  method PanicsAfterException(s: BlockStream, alive: nat, end: End, reply: seq<Kind>) returns (r: Opened)
    requires s.Valid() && s.state == Reading && s.transport.Some? && Answer(reply)
    requires var rest := SkipProgress(s.transport.value.wire);
      rest != [] && rest[0].kind == Exception && |s.transport.value.wire| - |rest| < alive
    modifies s, s.client
    ensures r == OpenPanic
  {
    hide *;
    var next := s.Next(alive, end);
    s.Drop();
    NoHandles(s.client.nextId);
    r := s.client.StreamBlocks([], [], reply);
  }

  lemma NoHandles(id: nat)
    ensures Usable([], id)
  {
  }
}
