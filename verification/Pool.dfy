/** The connection pool with each poll, return and release taken as one step: who waits,
    who is woken, and how soon a pending open is polled. */
module Pool {
  import opened Bytes

  const PENDING_OPEN_POLL_BUDGET: nat := 4

  /** What a pending open answers when it is polled. */
  datatype Answer = Ready | Pending | Failed

  datatype PollResult = Handle(conn: nat) | OpenFailed | NotYet

  // ----- the queue of pending opens -----

  /** The futures among `fs` that answer `a`. */
  function Select(fs: seq<nat>, answers: seq<Answer>, a: Answer): seq<nat>
    requires |fs| <= |answers|
  {
    if |fs| == 0 then []
    else
      var n := |fs| - 1;
      Select(fs[..n], answers, a) + (if answers[n] == a then [fs[n]] else [])
  }

  lemma {:induction false} SelectAll(fs: seq<nat>, answers: seq<Answer>)
    requires |fs| <= |answers|
    ensures |Select(fs, answers, Ready)| + |Select(fs, answers, Pending)| + |Select(fs, answers, Failed)| == |fs|
  {
    if |fs| > 0 { SelectAll(fs[..|fs| - 1], answers); }
  }

  lemma SelectNone(answers: seq<Answer>)
    ensures forall a {:trigger Select([], answers, a)} :: Select([], answers, a) == []
  {
  }

  lemma SelectStep(fs: seq<nat>, answers: seq<Answer>, i: nat, a: Answer)
    requires i < |fs| && i < |answers|
    ensures Select(fs[..i + 1], answers, a) == Select(fs[..i], answers, a) + (if answers[i] == a then [fs[i]] else [])
  {
    assert fs[..i + 1][..i] == fs[..i];
  }

  /** The loop invariants of the polling loop one step on. */
  lemma Advance(queue: seq<nat>, answers: seq<Answer>, i: nat)
    requires i < |queue| && i < |answers|
    ensures forall a {:trigger Select(queue[..i + 1], answers, a)} ::
              Select(queue[..i + 1], answers, a)
              == Select(queue[..i], answers, a) + (if answers[i] == a then [queue[i]] else [])
    ensures var kept := Select(queue[..i], answers, Pending);
      queue[i..] + kept != [] && (queue[i..] + kept)[0] == queue[i] && (queue[i..] + kept)[1..] == queue[i + 1..] + kept
      && queue[i + 1..] + kept + [queue[i]] == queue[i + 1..] + (kept + [queue[i]])
      && |kept| <= i
  {
    SelectAll(queue[..i], answers);
    forall a {:trigger Select(queue[..i + 1], answers, a)}
      ensures Select(queue[..i + 1], answers, a)
           == Select(queue[..i], answers, a) + (if answers[i] == a then [queue[i]] else [])
    {
      SelectStep(queue, answers, i, a);
    }
  }

  /** How many futures one call polls. */
  function Polled(queue: seq<nat>): nat { Min(|queue|, PENDING_OPEN_POLL_BUDGET) }

  /** The queue after a call: the polled futures leave, those still pending join at the end. */
  function Rotated(queue: seq<nat>, answers: seq<Answer>): seq<nat>
    requires |answers| == PENDING_OPEN_POLL_BUDGET
  {
    queue[Polled(queue)..] + Select(queue[..Polled(queue)], answers, Pending)
  }

  datatype QueueEvent = Call(answers: seq<Answer>) | Append(future: nat)

  type Answers = a: seq<Answer> | |a| == PENDING_OPEN_POLL_BUDGET witness [Ready, Ready, Ready, Ready]

  predicate Calls(events: seq<QueueEvent>, n: nat) {
    if n == 0 then true
    else if |events| == 0 then false
    else if events[0].Call? then |events[0].answers| == PENDING_OPEN_POLL_BUDGET && Calls(events[1..], n - 1)
    else Calls(events[1..], n)
  }

  /** Is future `f` polled within the next `n` calls. */
  predicate PolledWithin(queue: seq<nat>, events: seq<QueueEvent>, f: nat, n: nat)
    requires Calls(events, n)
    decreases |events|
  {
    if n == 0 then false
    else
      match events[0]
      case Append(g) => PolledWithin(queue + [g], events[1..], f, n)
      case Call(answers) =>
        f in queue[..Polled(queue)] || PolledWithin(Rotated(queue, answers), events[1..], f, n - 1)
  }

  /** A future at position `p` is polled by the (p/4 + 1)-th call at the latest, whatever
      the others answer and whatever is appended meanwhile. */
  lemma {:induction false} Fairness(queue: seq<nat>, p: nat, events: seq<QueueEvent>)
    requires p < |queue| && Calls(events, p / 4 + 1)
    ensures PolledWithin(queue, events, queue[p], p / 4 + 1)
    decreases |events|
  {
    match events[0]
    case Append(g) => Fairness(queue + [g], p, events[1..]);
    case Call(answers) =>
      if p < Polled(queue) {
        assert queue[..Polled(queue)][p] == queue[p];
      } else {
        var rotated := Rotated(queue, answers);
        assert rotated[p - 4] == queue[p];
        assert (p - 4) / 4 + 1 == p / 4;
        Fairness(rotated, p - 4, events[1..]);
      }
  }

  // ----- the pool -----

  class ConnectionPool {
    const min: nat
    const max: nat
    var new_: seq<nat>       // pending opens
    var idle: seq<nat>
    var tasks: seq<nat>      // parked wakers
    var ongoing: nat
    var connSlots: nat
    ghost var out: nat       // checked-out connections
    ghost var woken: seq<nat>

    ghost predicate Conserved()
      reads this
    {
      connSlots == |new_| + |idle| + out && connSlots <= max && ongoing == out
    }

    /** Nobody waits while a connection is idle or a slot is free. */
    ghost predicate Valid()
      reads this
    {
      Conserved() && (|tasks| > 0 ==> |idle| == 0 && |new_| + out == max)
    }

    constructor (min: nat, max: nat)
      requires max >= 1
      ensures Valid() && this.min == min && this.max == max && out == 0 && new_ == [] && idle == [] && tasks == []
    {
      this.min := min;
      this.max := max;
      new_ := [];
      idle := [];
      tasks := [];
      ongoing := 0;
      connSlots := 0;
      out := 0;
      woken := [];
    }

    method WakeTasks()
      modifies this`tasks, this`woken
      ensures tasks == [] && woken == old(woken) + old(tasks)
    {
      while |tasks| > 0
        invariant woken + tasks == old(woken) + old(tasks)
      {
        woken := woken + [tasks[0]];
        tasks := tasks[1..];
      }
    }

    method TryReserve() returns (ok: bool)
      requires Conserved()
      modifies this`connSlots
      ensures ok == (old(connSlots) < max)
      ensures connSlots == if ok then old(connSlots) + 1 else old(connSlots)
    {
      ok := connSlots < max;
      if ok {
        connSlots := connSlots + 1;
      }
    }

    /** Pops the oldest pending open and polls it: it ends up idle, back in the queue, or
        gone with its slot. */
    method PollOldest(answer: Answer)
      requires Conserved() && |new_| > 0
      modifies this`new_, this`idle, this`connSlots
      ensures Conserved()
      ensures new_ == old(new_)[1..] + (if answer == Pending then [old(new_)[0]] else [])
      ensures idle == old(idle) + (if answer == Ready then [old(new_)[0]] else [])
      ensures connSlots == old(connSlots) - (if answer == Failed then 1 else 0)
    {
      var future := new_[0];
      new_ := new_[1..];
      match answer
      case Ready =>
        if |idle| == max {
          assert false;
        }
        idle := idle + [future];
      case Pending =>
        if |new_| == max {
          assert false;
        }
        new_ := new_ + [future];
      case Failed =>
        connSlots := connSlots - 1;
    }

    /** The polling loop. */
    method PollPending(answers: Answers) returns (wake: bool, failed: bool)
      requires Conserved()
      modifies this`new_, this`idle, this`connSlots
      ensures Conserved()
      ensures new_ == Rotated(old(new_), answers)
      ensures var polled := old(new_)[..Polled(old(new_))];
        idle == old(idle) + Select(polled, answers, Ready)
        && connSlots == old(connSlots) - |Select(polled, answers, Failed)|
        && failed == (Select(polled, answers, Failed) != [])
        && wake == (|Select(polled, answers, Pending)| < |polled|)
    {
      var len := Min(|new_|, PENDING_OPEN_POLL_BUDGET);
      ghost var queue := new_;
      failed := false;
      wake := false;
      assert queue[..0] == [];
      SelectNone(answers);
      hide Select;
      for i := 0 to len
        invariant new_ == queue[i..] + Select(queue[..i], answers, Pending)
        invariant idle == old(idle) + Select(queue[..i], answers, Ready)
        invariant connSlots == old(connSlots) - |Select(queue[..i], answers, Failed)|
        invariant failed == (Select(queue[..i], answers, Failed) != [])
        invariant wake == (|Select(queue[..i], answers, Pending)| < i)
        invariant Conserved()
      {
        Advance(queue, answers, i);
        hide Conserved;
        ghost var kept, ready := Select(queue[..i], answers, Pending), idle;
        PollOldest(answers[i]);
        assert answers[i] != Ready ==> idle == ready;
        assert answers[i] == Ready ==> idle == old(idle) + (Select(queue[..i], answers, Ready) + [queue[i]]);
        wake := wake || answers[i] != Pending;
        failed := failed || answers[i] == Failed;
      }
    }

    /** Polls at most four pending opens. All waiters are woken if and only if a connection
        came in or a slot came free. */
    method HandleFutures(answers: Answers) returns (failed: bool)
      requires Valid()
      modifies this`new_, this`idle, this`tasks, this`connSlots, this`woken
      ensures Valid()
      ensures new_ == Rotated(old(new_), answers)
      ensures var polled := old(new_)[..Polled(old(new_))];
        idle == old(idle) + Select(polled, answers, Ready)
        && connSlots == old(connSlots) - |Select(polled, answers, Failed)|
        && failed == (Select(polled, answers, Failed) != [])
        && if |Select(polled, answers, Pending)| < |polled| then tasks == [] && woken == old(woken) + old(tasks)
           else tasks == old(tasks) && woken == old(woken)
    {
      SelectAll(new_[..Polled(new_)], answers);
      hide Select;
      var wake;
      wake, failed := PollPending(answers);
      if wake {
        WakeTasks();
      }
    }

    method TakeConn() returns (r: PollResult)
      requires Valid()
      modifies this`idle, this`ongoing, this`out
      ensures Valid()
      ensures if old(idle) == [] then r == NotYet && idle == [] && out == old(out)
              else r == Handle(old(idle)[0]) && idle == old(idle)[1..] && out == old(out) + 1
    {
      if |idle| == 0 {
        return NotYet;
      }
      r := Handle(idle[0]);
      idle := idle[1..];
      ongoing := ongoing + 1;
      out := out + 1;
    }

    /** One poll of a handle request. An idle connection is taken first; else the request
        opens one more, if there is a slot, and wakes itself; else it is parked. */
    method Poll(waker: nat, answers: Answers, future: nat) returns (r: PollResult)
      requires Valid()
      modifies this
      ensures Valid()
      ensures var polled := old(new_)[..Polled(old(new_))];
        var ready := old(idle) + Select(polled, answers, Ready);
        var parked := r == NotYet && |Rotated(old(new_), answers)| + out == max;
        r == (if ready != [] then Handle(ready[0])
              else if Select(polled, answers, Failed) != [] then OpenFailed else NotYet)
        && idle == (if ready != [] then ready[1..] else [])
        && out == (if ready != [] then old(out) + 1 else old(out))
        && new_ == Rotated(old(new_), answers) + (if r == NotYet && !parked then [future] else [])
        && woken == old(woken) + (if |Select(polled, answers, Pending)| < |polled| then old(tasks) else [])
                    + (if r == NotYet && !parked then [waker] else [])
        && tasks == (if |Select(polled, answers, Pending)| < |polled| then [] else old(tasks))
                    + (if parked then [waker] else [])
    {
      hide Select, Rotated, Polled;
      var failed := HandleFutures(answers);
      r := TakeConn();
      if r.Handle? {
        return;
      }
      if failed {
        return OpenFailed;
      }
      var ok := TryReserve();
      if ok {
        if |new_| == max {
          assert false;
        }
        new_ := new_ + [future];
        woken := woken + [waker];
        return NotYet;
      }
      tasks := tasks + [waker];
    }

    /** A handle comes back: it is kept when it is attached and the pool is short of idle
        connections, else its slot comes free. Either way everybody waiting is woken. */
    method ReturnConn(conn: nat, attached: bool)
      requires Valid() && out > 0
      modifies this
      ensures Valid() && out == old(out) - 1 && new_ == old(new_)
      ensures idle == if |old(idle)| < min && attached then old(idle) + [conn] else old(idle)
      ensures tasks == [] && woken == old(woken) + old(tasks)
    {
      if ongoing == 0 {
        assert false;
      }
      out := out - 1;
      var kept := false;
      if |idle| < min && attached {
        if |idle| == max {
          assert false;
        }
        idle := idle + [conn];
        kept := true;
      }
      ongoing := ongoing - 1;
      if !kept {
        connSlots := connSlots - 1;
      }
      WakeTasks();
    }

    /** A transport is dropped outside a handle. */
    method ReleaseConn()
      requires Valid() && out > 0
      modifies this
      ensures Valid() && out == old(out) - 1 && new_ == old(new_) && idle == old(idle)
      ensures tasks == [] && woken == old(woken) + old(tasks)
    {
      if ongoing == 0 {
        assert false;
      }
      out := out - 1;
      ongoing := ongoing - 1;
      connSlots := connSlots - 1;
      WakeTasks();
    }
  }
}
