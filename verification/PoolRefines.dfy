/** The pool of single steps does what the pool of whole operations does, as long as the
    operations do not overlap. */
module PoolRefines {
  import Bytes
  import Coarse = Pool
  import opened PoolSteps
  import opened PoolAlone

  /** The two pools agree: futures and connections are counted, not told apart. */
  ghost predicate Agree(pool: Coarse.ConnectionPool, c: Config, p: Pool)
    reads pool
  {
    pool.min == c.min && pool.max == c.max
    && |pool.new_| == p.opening && |pool.idle| == |p.idle| && |pool.tasks| == p.waiting
    && pool.ongoing == p.ongoing && pool.connSlots == p.slots
  }

  method ReturnAgrees(pool: Coarse.ConnectionPool, conn: nat, attached: bool,
        ghost c: Config, ghost s: State, ghost t: nat, ghost steps: seq<(nat, Event)>, ghost end: State)
    requires pool.Valid() && Agree(pool, c, s.pool)
    requires Inv(c, s) && Uses(c, s, t, BeginReturn(attached), steps, end)
    modifies pool
    ensures pool.Valid() && Agree(pool, c, end.pool)
  {
    ReturnIs(c, s, t, attached, steps, end);
    Counts(c, s, t);
    hide Inv, Uses;
    pool.ReturnConn(conn, attached);
  }

  method DropAgrees(pool: Coarse.ConnectionPool,
        ghost c: Config, ghost s: State, ghost t: nat, ghost steps: seq<(nat, Event)>, ghost end: State)
    requires pool.Valid() && Agree(pool, c, s.pool)
    requires Inv(c, s) && Uses(c, s, t, BeginDrop, steps, end)
    modifies pool
    ensures pool.Valid() && Agree(pool, c, end.pool)
  {
    DropIs(c, s, t, steps, end);
    Counts(c, s, t);
    hide Inv, Uses;
    pool.ReleaseConn();
  }

  lemma Counts(c: Config, s: State, t: nat)
    requires Inv(c, s) && t < |s.actors| && s.actors[t].Using?
    ensures s.pool.ongoing > 0
  {
    InvLocal(c, s, t);
  }

  // ----- polls -----

  function EventOf(a: Coarse.Answer): Event {
    match a
    case Ready => FutureReady
    case Pending => FuturePending
    case Failed => FutureFailed
  }

  /** The futures answer the same in both pools. */
  predicate SameAnswers(met: seq<Event>, answers: seq<Coarse.Answer>) {
    |met| <= |answers| && forall i :: 0 <= i < |met| ==> met[i] == EventOf(answers[i])
  }

  lemma {:induction false} CountLast(met: seq<Event>, e: Event)
    requires |met| > 0
    ensures Count(met, e) == Count(met[..|met| - 1], e) + (if met[|met| - 1] == e then 1 else 0)
  {
    if |met| > 1 {
      CountLast(met[1..], e);
      assert met[1..][..|met| - 2] == met[..|met| - 1][1..];
    }
  }

  lemma {:induction false} Selected(fs: seq<nat>, met: seq<Event>, answers: seq<Coarse.Answer>, a: Coarse.Answer)
    requires SameAnswers(met, answers) && |fs| == |met|
    ensures |Coarse.Select(fs, answers, a)| == Count(met, EventOf(a))
  {
    if |fs| > 0 {
      var n := |fs| - 1;
      CountLast(met, EventOf(a));
      Selected(fs[..n], met[..n], answers, a);
    }
  }

  lemma Lengths(queue: seq<nat>, met: seq<Event>, answers: Coarse.Answers)
    requires SameAnswers(met, answers) && |met| == Coarse.Polled(queue)
    ensures Coarse.Polled(queue) <= |queue|
    ensures var polled := queue[..Coarse.Polled(queue)];
      var ready, lost := Count(met, FutureReady), Count(met, FutureFailed);
      |Coarse.Select(polled, answers, Coarse.Ready)| == ready
      && |Coarse.Select(polled, answers, Coarse.Failed)| == lost
      && (|Coarse.Select(polled, answers, Coarse.Pending)| < |polled| <==> ready + lost > 0)
      && |Coarse.Rotated(queue, answers)| == |queue| - ready - lost
  {
    var polled := queue[..Coarse.Polled(queue)];
    Selected(polled, met, answers, Coarse.Ready);
    Selected(polled, met, answers, Coarse.Failed);
    Coarse.SelectAll(polled, answers);
  }

  /** A poll of the coarse pool, in numbers. */
  method PollInNumbers(pool: Coarse.ConnectionPool, waker: nat, answers: Coarse.Answers, future: nat,
        ghost met: seq<Event>)
      returns (r: Coarse.PollResult)
    requires pool.Valid() && SameAnswers(met, answers) && |met| == Coarse.Polled(pool.new_)
    modifies pool
    ensures pool.Valid()
    ensures var ready, lost := Count(met, FutureReady), Count(met, FutureFailed);
      var idle, waiting := |old(pool.idle)| + ready, if ready + lost > 0 then 0 else |old(pool.tasks)|;
      var slots, opening := old(pool.connSlots) - lost, |old(pool.new_)| - ready - lost;
      (r.Handle? <==> idle > 0)
      && |pool.idle| == (if idle > 0 then idle - 1 else 0)
      && pool.ongoing == old(pool.ongoing) + (if idle > 0 then 1 else 0)
      && if idle == 0 && lost == 0 && slots < pool.max then
           |pool.new_| == opening + 1 && pool.connSlots == slots + 1 && |pool.tasks| == waiting
         else
           |pool.new_| == opening && pool.connSlots == slots
           && |pool.tasks| == waiting + (if idle == 0 && lost == 0 then 1 else 0)
  {
    Lengths(pool.new_, met, answers);
    hide Coarse.Select, Count, SameAnswers, Coarse.Rotated, Coarse.Polled;
    r := pool.Poll(waker, answers, future);
  }

  method PollAgrees(pool: Coarse.ConnectionPool, waker: nat, answers: Coarse.Answers, future: nat,
        ghost c: Config, ghost s: State, ghost t: nat, ghost steps: seq<(nat, Event)>, ghost end: State)
      returns (r: Coarse.PollResult)
    requires pool.Valid() && Agree(pool, c, s.pool)
    requires Inv(c, s) && Uses(c, s, t, BeginPoll, steps, end)
    requires SameAnswers(Met(c, s.pool, OpenLen, EventsOf(steps)), answers)
    modifies pool
    ensures pool.Valid() && Agree(pool, c, end.pool)
    ensures t < |end.actors| && (r.Handle? <==> end.actors[t].Using?)
  {
    PollIs(c, s, t, steps, end);
    ghost var met := Met(c, s.pool, OpenLen, EventsOf(steps));
    hide Inv, Uses, Met, Count, SameAnswers;
    r := PollInNumbers(pool, waker, answers, future, met);
  }
}
