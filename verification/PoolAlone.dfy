/** An actor that is not disturbed: what a poll, a return and a drop come to when their atomic
    operations are not interleaved with others, and that every use of the pool ends. */
module PoolAlone {
  import opened PoolSteps

  /** Before and after a use of the pool. */
  predicate AtEase(pc: PC) { pc.Resting? || pc.Using? }

  /** The actor runs alone until its use of the pool has ended. */
  predicate Alone(c: Config, p: Pool, pc: PC, es: seq<Event>, p2: Pool, pc2: PC)
    decreases |es|
  {
    if |es| == 0 then p == p2 && pc == pc2 && AtEase(pc)
    else
      var r := Act(c, p, pc, es[0]);
      !AtEase(pc) && r.Then? && Alone(c, r.pool, r.pc, es[1..], p2, pc2)
  }

  /** What the pending opens answer that the actor polls. */
  function Met(c: Config, p: Pool, pc: PC, es: seq<Event>): seq<Event>
    decreases |es|
  {
    if |es| == 0 || Act(c, p, pc, es[0]).Blocked? then []
    else
      var r := Act(c, p, pc, es[0]);
      (if pc.OpenPoll? then [es[0]] else []) + Met(c, r.pool, r.pc, es[1..])
  }

  /** The steps of actor `t` alone, in a run of all actors. */
  function StepsOf(t: nat, es: seq<Event>): (r: seq<(nat, Event)>)
    ensures |r| == |es| && forall i :: 0 <= i < |es| ==> r[i] == (t, es[i])
  {
    seq(|es|, i requires 0 <= i < |es| => (t, es[i]))
  }

  function EventsOf(steps: seq<(nat, Event)>): (r: seq<Event>)
    ensures |r| == |steps| && forall i :: 0 <= i < |steps| ==> r[i] == steps[i].1
  {
    seq(|steps|, i requires 0 <= i < |steps| => steps[i].1)
  }

  /** A run in which only actor `t` moves, up to the end of its use. */
  predicate Through(c: Config, s: State, t: nat, steps: seq<(nat, Event)>, end: State)
    decreases |steps|
  {
    t < |s.actors|
    && if |steps| == 0 then s == end && AtEase(s.actors[t])
       else
         var (u, e) := steps[0];
         u == t && !AtEase(s.actors[t]) && Enabled(c, s, t, e) && Through(c, Step(c, s, t, e), t, steps[1..], end)
  }

  /** A run of one whole use, which begins with `e`. */
  predicate Uses(c: Config, s: State, t: nat, e: Event, steps: seq<(nat, Event)>, end: State) {
    Enabled(c, s, t, e) && AtEase(s.actors[t]) && Through(c, Step(c, s, t, e), t, steps, end)
  }

  lemma {:induction false} ThroughAlone(c: Config, s: State, t: nat, steps: seq<(nat, Event)>, end: State)
    requires Through(c, s, t, steps, end)
    ensures t < |end.actors| && end.actors == s.actors[t := end.actors[t]]
    ensures Alone(c, s.pool, s.actors[t], EventsOf(steps), end.pool, end.actors[t])
    ensures Run(c, s, steps, end)
    decreases |steps|
  {
    hide Act;
    if |steps| > 0 {
      ThroughAlone(c, Step(c, s, t, steps[0].1), t, steps[1..], end);
      assert EventsOf(steps)[1..] == EventsOf(steps[1..]);
    } else {
      assert s.actors[t := s.actors[t]] == s.actors;
    }
  }

  lemma {:induction false} AloneThrough(c: Config, s: State, t: nat, es: seq<Event>, p2: Pool, pc2: PC)
    requires t < |s.actors| && Alone(c, s.pool, s.actors[t], es, p2, pc2)
    ensures Through(c, s, t, StepsOf(t, es), State(p2, s.actors[t := pc2]))
    decreases |es|
  {
    hide Act;
    if |es| == 0 {
      assert s.actors[t := pc2] == s.actors;
    } else {
      var r := Step(c, s, t, es[0]);
      AloneThrough(c, r, t, es[1..], p2, pc2);
      assert StepsOf(t, es)[1..] == StepsOf(t, es[1..]);
      assert r.actors[t := pc2] == s.actors[t := pc2];
    }
  }

  /** One step of a run alone. */
  lemma Onward(c: Config, p: Pool, pc: PC, e: Event, p1: Pool, pc1: PC, es: seq<Event>, p2: Pool, pc2: PC)
    requires !AtEase(pc) && Act(c, p, pc, e) == Then(p1, pc1) && Alone(c, p1, pc1, es, p2, pc2)
    ensures Alone(c, p, pc, [e] + es, p2, pc2)
    ensures Met(c, p, pc, [e] + es) == (if pc.OpenPoll? then [e] else []) + Met(c, p1, pc1, es)
  {
    var all := [e] + es;
    assert |all| > 0 && all[0] == e && all[1..] == es;
    hide *;
    AloneBy(c, p, pc, all, p2, pc2);
    MetBy(c, p, pc, all);
  }

  lemma AloneBy(c: Config, p: Pool, pc: PC, es: seq<Event>, p2: Pool, pc2: PC)
    requires !AtEase(pc) && |es| > 0 && Act(c, p, pc, es[0]).Then?
    requires var r := Act(c, p, pc, es[0]); Alone(c, r.pool, r.pc, es[1..], p2, pc2)
    ensures Alone(c, p, pc, es, p2, pc2)
  {
    hide Act;
  }

  lemma MetBy(c: Config, p: Pool, pc: PC, es: seq<Event>)
    requires |es| > 0 && Act(c, p, pc, es[0]).Then?
    ensures var r := Act(c, p, pc, es[0]);
      Met(c, p, pc, es) == (if pc.OpenPoll? then [es[0]] else []) + Met(c, r.pool, r.pc, es[1..])
  {
    hide Act;
  }

  /** The first step of a run alone. */
  lemma Peel(c: Config, p: Pool, pc: PC, es: seq<Event>, p2: Pool, pc2: PC)
      returns (p1: Pool, pc1: PC, rest: seq<Event>)
    requires !AtEase(pc) && Alone(c, p, pc, es, p2, pc2)
    ensures |es| > 0 && Act(c, p, pc, es[0]) == Then(p1, pc1) && rest == es[1..]
    ensures Alone(c, p1, pc1, rest, p2, pc2)
    ensures Met(c, p, pc, es) == (if pc.OpenPoll? then [es[0]] else []) + Met(c, p1, pc1, rest)
  {
    hide Act;
    var r := Act(c, p, pc, es[0]);
    p1, pc1, rest := r.pool, r.pc, es[1..];
  }

  // ----- waking -----

  lemma {:induction false} WakeAllEnds(c: Config, p: Pool, es: seq<Event>, p2: Pool, pc2: PC)
    requires Alone(c, p, WakeAll, es, p2, pc2)
    ensures p2 == p.(waiting := 0) && pc2 == Resting
    decreases |es|
  {
    if p.waiting > 0 { WakeAllEnds(c, p.(waiting := p.waiting - 1), es[1..], p2, pc2); }
  }

  lemma {:induction false} WakeAllRuns(c: Config, p: Pool) returns (es: seq<Event>)
    ensures Alone(c, p, WakeAll, es, p.(waiting := 0), Resting) && Met(c, p, WakeAll, es) == []
    decreases p.waiting
  {
    if p.waiting == 0 {
      es := [Tick];
      assert es[1..] == [];
    } else {
      es := WakeAllRuns(c, p.(waiting := p.waiting - 1));
      Onward(c, p, WakeAll, Tick, p.(waiting := p.waiting - 1), WakeAll, es, p.(waiting := 0), Resting);
      es := [Tick] + es;
    }
  }

  // ----- a return -----

  /** The pool after a return: the connection is kept if the handle is attached and the pool is
      short of idle ones, else its slot comes free. */
  function Returned(c: Config, p: Pool, id: nat, attached: bool): Pool
    requires p.ongoing > 0 && id < |p.settled|
  {
    var settled := p.settled[id := p.settled[id] + 1];
    if attached && |p.idle| < c.min then
      p.(idle := p.idle + [true], ongoing := p.ongoing - 1, waiting := 0, settled := settled)
    else
      p.(slots := if p.slots > 0 then p.slots - 1 else 0, ongoing := p.ongoing - 1, waiting := 0, settled := settled)
  }

  /** A step of a return, whatever the event. */
  lemma PeelReturn(c: Config, p: Pool, pc: PC, es: seq<Event>, p2: Pool, pc2: PC)
      returns (p1: Pool, pc1: PC, rest: seq<Event>)
    requires Returning(pc) && Alone(c, p, pc, es, p2, pc2)
    ensures StepReturn(c, p, pc) == Then(p1, pc1) && Alone(c, p1, pc1, rest, p2, pc2) && |rest| < |es|
  {
    hide Alone, StepReturn, StepOpen, StepTake;
    p1, pc1, rest := Peel(c, p, pc, es, p2, pc2);
  }

  lemma LenEnds(c: Config, p: Pool, id: nat, attached: bool, es: seq<Event>, p2: Pool, pc2: PC)
    requires p.slots > 0 && p.ongoing > 0 && |p.idle| < c.max && id < |p.settled|
    requires Alone(c, p, ReturnLen(id, attached, true), es, p2, pc2)
    ensures p2 == Returned(c, p, id, attached) && pc2 == Resting
  {
    hide Alone;
    var q, pc, rest := PeelReturn(c, p, ReturnLen(id, attached, true), es, p2, pc2);
    q, pc, rest := PeelReturn(c, q, pc, rest, p2, pc2);
    q, pc, rest := PeelReturn(c, q, pc, rest, p2, pc2);
    WakeAllEnds(c, q, rest, p2, pc2);
  }

  lemma ReturnEnds(c: Config, p: Pool, id: nat, attached: bool, es: seq<Event>, p2: Pool, pc2: PC)
    requires Local(c, p, Using(id, false)) && Alone(c, p, ReturnMark(id, attached, false), es, p2, pc2)
    ensures p2 == Returned(c, p, id, attached) && pc2 == Resting
  {
    assert p.slots > 0 && p.ongoing > 0 && |p.idle| < c.max && id < |p.settled|;
    hide Alone, Local, Returned;
    var q, pc, rest := PeelReturn(c, p, ReturnMark(id, attached, false), es, p2, pc2);
    q, pc, rest := PeelReturn(c, q, pc, rest, p2, pc2);
    LenEnds(c, q, id, attached, rest, p2, pc2);
  }

  // ----- a drop -----

  /** The pool after a transport was dropped outside a handle. */
  function Released(p: Pool, id: nat): Pool
    requires p.slots > 0 && p.ongoing > 0 && id < |p.settled|
  {
    p.(slots := p.slots - 1, ongoing := p.ongoing - 1, waiting := 0, settled := p.settled[id := p.settled[id] + 1])
  }

  lemma PeelDrop(c: Config, p: Pool, pc: PC, es: seq<Event>, p2: Pool, pc2: PC)
      returns (p1: Pool, pc1: PC, rest: seq<Event>)
    requires pc.DropLoad? || pc.ReleaseCheck? || pc.ReleaseSub? || pc.ReleaseFree?
    requires Alone(c, p, pc, es, p2, pc2)
    ensures StepDrop(p, pc) == Then(p1, pc1) && Alone(c, p1, pc1, rest, p2, pc2)
  {
    hide Alone, StepReturn, StepOpen, StepTake, StepDrop;
    p1, pc1, rest := Peel(c, p, pc, es, p2, pc2);
  }

  lemma DropEnds(c: Config, p: Pool, id: nat, es: seq<Event>, p2: Pool, pc2: PC)
    requires Local(c, p, Using(id, false)) && Alone(c, p, DropLoad(id, false), es, p2, pc2)
    ensures p.slots > 0 && p.ongoing > 0 && id < |p.settled|
    ensures p2 == Released(p, id) && pc2 == Resting
  {
    assert p.slots > 0 && p.ongoing > 0 && id < |p.settled|;
    hide Alone, Local;
    var q, pc, rest := PeelDrop(c, p, DropLoad(id, false), es, p2, pc2);
    q, pc, rest := PeelDrop(c, q, pc, rest, p2, pc2);
    q, pc, rest := PeelDrop(c, q, pc, rest, p2, pc2);
    q, pc, rest := PeelDrop(c, q, pc, rest, p2, pc2);
    WakeAllEnds(c, q, rest, p2, pc2);
  }

  // ----- a poll -----

  /** Taking: the oldest idle connection, else nothing after a failed open, else a slot for one
      more open, else a place among the waiters. */
  function Taken(c: Config, p: Pool, failed: bool): (Pool, PC) {
    if |p.idle| > 0 then
      (p.(idle := p.idle[1..], settled := p.settled + [0], ongoing := p.ongoing + 1), Using(|p.settled|, false))
    else if failed then (p, Resting)
    else if p.slots < c.max then (p.(slots := p.slots + 1, opening := p.opening + 1), Resting)
    else (p.(waiting := p.waiting + 1), Resting)
  }

  lemma PeelTake(c: Config, p: Pool, pc: PC, es: seq<Event>, p2: Pool, pc2: PC)
      returns (p1: Pool, pc1: PC, rest: seq<Event>)
    requires Taking(pc) && Alone(c, p, pc, es, p2, pc2)
    ensures |es| > 0 && StepTake(c, p, pc, es[0]) == Then(p1, pc1) && rest == es[1..]
    ensures Alone(c, p1, pc1, rest, p2, pc2) && Met(c, p, pc, es) == Met(c, p1, pc1, rest)
  {
    hide Alone, Met, StepReturn, StepOpen, StepTake;
    p1, pc1, rest := Peel(c, p, pc, es, p2, pc2);
  }

  lemma Ended(c: Config, p: Pool, pc: PC, es: seq<Event>, p2: Pool, pc2: PC)
    requires AtEase(pc) && Alone(c, p, pc, es, p2, pc2)
    ensures p2 == p && pc2 == pc && Met(c, p, pc, es) == []
  {
  }

  /** Nobody takes the slot that was seen, but the exchange may fail for no reason. */
  lemma {:induction false} SwapEnds(c: Config, p: Pool, seen: nat, es: seq<Event>, p2: Pool, pc2: PC)
    requires p.opening <= p.slots <= c.max && (seen == p.slots || seen < c.max)
    requires Alone(c, p, ReserveSwap(seen), es, p2, pc2)
    ensures Met(c, p, ReserveSwap(seen), es) == []
    ensures pc2 == Resting
    ensures p2 == if p.slots < c.max then p.(slots := p.slots + 1, opening := p.opening + 1)
                  else p.(waiting := p.waiting + 1)
    decreases |es|
  {
    hide Alone, Met;
    var q, pc, rest := PeelTake(c, p, ReserveSwap(seen), es, p2, pc2);
    if pc.ReserveSwap? {
      SwapEnds(c, p, p.slots, rest, p2, pc2);
    } else {
      q, pc, rest := PeelTake(c, q, pc, rest, p2, pc2);
      Ended(c, q, pc, rest, p2, pc2);
    }
  }

  lemma TakeEnds(c: Config, p: Pool, failed: bool, es: seq<Event>, p2: Pool, pc2: PC)
    requires p.opening + |p.idle| <= p.slots <= c.max
    requires Alone(c, p, TakePop(failed), es, p2, pc2)
    ensures (p2, pc2) == Taken(c, p, failed) && Met(c, p, TakePop(failed), es) == []
  {
    hide Alone, Met;
    var q, pc, rest := PeelTake(c, p, TakePop(failed), es, p2, pc2);
    if |p.idle| > 0 {
      q, pc, rest := PeelTake(c, q, pc, rest, p2, pc2);
      q, pc, rest := PeelTake(c, q, pc, rest, p2, pc2);
      Ended(c, q, pc, rest, p2, pc2);
    } else if failed {
      Ended(c, q, pc, rest, p2, pc2);
    } else {
      q, pc, rest := PeelTake(c, q, pc, rest, p2, pc2);
      SwapEnds(c, q, p.slots, rest, p2, pc2);
    }
  }

  /** How many of the answers are `e`. */
  function Count(met: seq<Event>, e: Event): (n: nat)
    ensures n <= |met|
  {
    if |met| == 0 then 0 else Count(met[1..], e) + (if met[0] == e then 1 else 0)
  }

  function Trues(n: nat): (r: seq<bool>)
    ensures |r| == n && forall i :: 0 <= i < n ==> r[i]
  {
    seq(n, _ => true)
  }

  /** The pool after `ready` opens came in and `failed` ones were lost. */
  function Opened(p: Pool, ready: nat, failed: nat): Pool
    requires ready + failed <= p.opening && failed <= p.slots
  {
    p.(opening := p.opening - ready - failed, slots := p.slots - failed, idle := p.idle + Trues(ready))
  }

  lemma PeelOpen(c: Config, p: Pool, pc: PC, es: seq<Event>, p2: Pool, pc2: PC)
      returns (p1: Pool, pc1: PC, rest: seq<Event>)
    requires Opening(pc) && Alone(c, p, pc, es, p2, pc2)
    ensures |es| > 0 && StepOpen(c, p, pc, es[0]) == Then(p1, pc1) && rest == es[1..]
    ensures Alone(c, p1, pc1, rest, p2, pc2)
    ensures Met(c, p, pc, es) == (if pc.OpenPoll? then [es[0]] else []) + Met(c, p1, pc1, rest)
  {
    hide Alone, Met, StepReturn, StepOpen, StepTake;
    p1, pc1, rest := Peel(c, p, pc, es, p2, pc2);
  }

  lemma {:induction false} OpenWakeEnds(c: Config, p: Pool, failed: bool, es: seq<Event>, p2: Pool, pc2: PC)
    requires p.opening + |p.idle| <= p.slots <= c.max
    requires Alone(c, p, OpenWake(failed), es, p2, pc2)
    ensures (p2, pc2) == Taken(c, p.(waiting := 0), failed) && Met(c, p, OpenWake(failed), es) == []
    decreases |es|
  {
    hide Alone, Met, Taken;
    var q, pc, rest := PeelOpen(c, p, OpenWake(failed), es, p2, pc2);
    if p.waiting > 0 { OpenWakeEnds(c, q, failed, rest, p2, pc2); } else { TakeEnds(c, q, failed, rest, p2, pc2); }
  }

  /** What a poll comes to from the loop on. */
  predicate LoopEnds(c: Config, p: Pool, left: nat, wake: bool, failed: bool, met: seq<Event>, p2: Pool, pc2: PC) {
    |met| == left && left <= p.opening && left <= p.slots
    && (forall i :: 0 <= i < left ==> met[i] == FutureReady || met[i] == FuturePending || met[i] == FutureFailed)
    && var ready, lost := Count(met, FutureReady), Count(met, FutureFailed);
       ready + lost <= left
       && var q := Opened(p, ready, lost);
          (p2, pc2) == Taken(c, if wake || ready + lost > 0 then q.(waiting := 0) else q, failed || lost > 0)
  }

  /** One future: it leaves the queue, and comes back when it is still pending. */
  function OneOpened(p: Pool, answer: Event): Pool
    requires p.opening > 0 && p.slots > 0
  {
    if answer == FutureReady then p.(opening := p.opening - 1, idle := p.idle + [true])
    else if answer == FutureFailed then p.(opening := p.opening - 1, slots := p.slots - 1)
    else p
  }

  lemma OneEnds(c: Config, p: Pool, left: nat, wake: bool, failed: bool, es: seq<Event>, p2: Pool, pc2: PC)
      returns (answer: Event, rest: seq<Event>)
    requires left > 0 && p.opening > 0 && p.opening + |p.idle| <= p.slots <= c.max
    requires Alone(c, p, OpenPop(left, wake, failed), es, p2, pc2)
    ensures answer == FutureReady || answer == FuturePending || answer == FutureFailed
    ensures var pc1 := OpenPop(left - 1, wake || answer != FuturePending, failed || answer == FutureFailed);
      |rest| < |es| && Alone(c, OneOpened(p, answer), pc1, rest, p2, pc2)
      && Met(c, p, OpenPop(left, wake, failed), es) == [answer] + Met(c, OneOpened(p, answer), pc1, rest)
  {
    hide Alone, Met;
    var q, pc;
    q, pc, rest := PeelOpen(c, p, OpenPop(left, wake, failed), es, p2, pc2);
    var behind := rest;
    q, pc, rest := PeelOpen(c, q, pc, rest, p2, pc2);
    answer := behind[0];
    q, pc, rest := PeelOpen(c, q, pc, rest, p2, pc2);
    assert p.(opening := p.opening - 1).(opening := p.opening - 1 + 1) == p;
  }

  lemma LoopStep(c: Config, p: Pool, left: nat, wake: bool, failed: bool, answer: Event, met: seq<Event>, p2: Pool,
        pc2: PC)
    requires 0 < left <= p.opening <= p.slots
    requires answer == FutureReady || answer == FuturePending || answer == FutureFailed
    requires LoopEnds(c, OneOpened(p, answer), left - 1, wake || answer != FuturePending,
                      failed || answer == FutureFailed, met, p2, pc2)
    ensures LoopEnds(c, p, left, wake, failed, [answer] + met, p2, pc2)
  {
    var met2 := [answer] + met;
    assert met2[1..] == met;
    var ready, lost := Count(met, FutureReady), Count(met, FutureFailed);
    hide Taken;
    if answer == FutureReady {
      assert Count(met2, FutureReady) == ready + 1 && Count(met2, FutureFailed) == lost;
      assert p.idle + [true] + Trues(ready) == p.idle + Trues(ready + 1);
    } else if answer == FutureFailed {
      assert Count(met2, FutureReady) == ready && Count(met2, FutureFailed) == lost + 1;
    } else {
      assert Count(met2, FutureReady) == ready && Count(met2, FutureFailed) == lost;
    }
  }

  lemma {:induction false} LoopIs(c: Config, p: Pool, left: nat, wake: bool, failed: bool, es: seq<Event>, p2: Pool,
        pc2: PC)
    requires left <= p.opening && p.opening + |p.idle| <= p.slots <= c.max
    requires Alone(c, p, OpenPop(left, wake, failed), es, p2, pc2)
    ensures LoopEnds(c, p, left, wake, failed, Met(c, p, OpenPop(left, wake, failed), es), p2, pc2)
    decreases left
  {
    hide Alone, Met, Taken;
    if left == 0 {
      var q, pc, rest := PeelOpen(c, p, OpenPop(left, wake, failed), es, p2, pc2);
      assert p.idle + Trues(0) == p.idle;
      if wake { OpenWakeEnds(c, q, failed, rest, p2, pc2); } else { TakeEnds(c, q, failed, rest, p2, pc2); }
    } else {
      hide LoopEnds;
      var answer, rest := OneEnds(c, p, left, wake, failed, es, p2, pc2);
      LoopIs(c, OneOpened(p, answer), left - 1, wake || answer != FuturePending, failed || answer == FutureFailed,
             rest, p2, pc2);
      LoopStep(c, p, left, wake, failed, answer,
               Met(c, OneOpened(p, answer),
                   OpenPop(left - 1, wake || answer != FuturePending, failed || answer == FutureFailed), rest),
               p2, pc2);
    }
  }

  /** A poll asks at most four pending opens. What came in is idle, the slots of what was lost
      are free, and if there was either, the waiters are woken. Then it takes. */
  lemma PollEnds(c: Config, p: Pool, es: seq<Event>, p2: Pool, pc2: PC)
    requires p.opening + |p.idle| <= p.slots <= c.max
    requires Alone(c, p, OpenLen, es, p2, pc2)
    ensures LoopEnds(c, p, if p.opening < 4 then p.opening else 4, false, false, Met(c, p, OpenLen, es), p2, pc2)
  {
    hide Alone, Met, LoopEnds;
    var q, pc, rest := PeelOpen(c, p, OpenLen, es, p2, pc2);
    LoopIs(c, q, pc.left, false, false, rest, p2, pc2);
    assert Met(c, p, OpenLen, es) == Met(c, q, pc, rest);
  }

  // ----- every use ends -----

  predicate Answered(e: Event) { e == FutureReady || e == FuturePending || e == FutureFailed }

  /** How far an actor is from the end of its use. */
  function Stage(pc: PC): nat {
    match pc
    case OpenLen => 7
    case OpenPop(_, _, _) | OpenPoll(_, _, _) | OpenReady(_, _) | OpenAgain(_, _, _) | OpenFree(_, _) => 6
    case OpenWake(_) => 5
    case TakePop(_) | ReserveLoad | TakeMark(_, _) | TakeCount(_, _) => 4
    case ReserveSwap(_) | PushNew | Unreserve | Park => 3
    case ReturnMark(_, _, _) | ReturnCheck(_, _, _) | ReturnLen(_, _, _) | ReturnPush(_, _) | ReturnSub(_, _) => 2
    case DropLoad(_, _) | ReleaseCheck(_) | ReleaseSub(_) => 2
    case ReturnFree(_) | ReleaseFree(_) => 2
    case WakeAll => 1
    case Resting | Using(_, _) => 0
  }

  function Level(p: Pool, pc: PC): nat {
    match pc
    case OpenPop(left, _, _) => 5 * left + 5
    case OpenPoll(left, _, _) => 5 * left + 9
    case OpenReady(left, _) => 5 * left + 8
    case OpenAgain(left, _, _) => 5 * left + 8
    case OpenFree(left, _) => 5 * left + 7
    case OpenWake(_) | WakeAll => p.waiting
    case TakePop(_) => 3
    case TakeMark(_, _) => 2
    case TakeCount(_, _) => 1
    case ReserveLoad => 2
    case ReserveSwap(seen) => if seen == p.slots then 3 else 4
    case PushNew => 2
    case Unreserve => 1
    case Park => 0
    case ReturnMark(_, _, _) => 6
    case ReturnCheck(_, _, _) => 5
    case ReturnLen(_, _, _) => 4
    case ReturnPush(_, _) => 3
    case ReturnSub(_, _) => 2
    case DropLoad(_, _) => 4
    case ReleaseCheck(_) => 3
    case ReleaseSub(_) => 2
    case ReturnFree(_) | ReleaseFree(_) => 1
    case _ => 0
  }

  predicate Nearer(p: Pool, pc: PC, p2: Pool, pc2: PC) {
    Stage(pc2) < Stage(pc) || (Stage(pc2) == Stage(pc) && Level(p2, pc2) < Level(p, pc))
  }

  /** How many futures the actor may still ask. */
  function Wants(pc: PC): nat {
    match pc
    case OpenLen => 4
    case OpenPop(left, _, _) => left
    case OpenPoll(left, _, _) => left + 1
    case OpenReady(left, _) => left
    case OpenAgain(left, _, _) => left
    case OpenFree(left, _) => left
    case _ => 0
  }

  /** The next step of an actor that is in the middle of a use can be made, and brings it
      nearer to the end, unless the exchange fails for no reason. */
  lemma StepNearer(c: Config, p: Pool, pc: PC, e: Event)
    requires !AtEase(pc) && (if pc.OpenPoll? then Answered(e) else e == Tick)
    ensures var r := Act(c, p, pc, e);
      r.Then? && Nearer(p, pc, r.pool, r.pc) && Wants(r.pc) + One(pc.OpenPoll?) <= Wants(pc)
  {
    if Opening(pc) {
      OpenNearer(c, p, pc, e);
    } else if Taking(pc) {
      TakeNearer(c, p, pc, e);
    } else if Returning(pc) {
      hide StepOpen, StepTake, StepDrop;
    } else {
      hide StepOpen, StepTake, StepReturn;
    }
  }

  lemma TakeNearer(c: Config, p: Pool, pc: PC, e: Event)
    requires Taking(pc) && e == Tick
    ensures var r := StepTake(c, p, pc, e);
      r.Then? && Nearer(p, pc, r.pool, r.pc) && Wants(r.pc) + One(pc.OpenPoll?) <= Wants(pc)
  {
  }

  lemma OpenNearer(c: Config, p: Pool, pc: PC, e: Event)
    requires Opening(pc) && (if pc.OpenPoll? then Answered(e) else e == Tick)
    ensures var r := StepOpen(c, p, pc, e);
      r.Then? && Nearer(p, pc, r.pool, r.pc) && Wants(r.pc) + One(pc.OpenPoll?) <= Wants(pc)
  {
  }

  /** Whatever the pending opens answer, an actor that runs alone comes to the end of its use. */
  lemma {:induction false} Ends(c: Config, p: Pool, pc: PC, answers: seq<Event>)
      returns (es: seq<Event>, p2: Pool, pc2: PC)
    requires Wants(pc) <= |answers| && forall i :: 0 <= i < |answers| ==> Answered(answers[i])
    ensures Alone(c, p, pc, es, p2, pc2) && Met(c, p, pc, es) <= answers
    decreases Stage(pc), Level(p, pc)
  {
    if AtEase(pc) {
      es, p2, pc2 := [], p, pc;
    } else {
      hide Act, Alone, Met, Stage, Level, Wants, AtEase;
      var e := if pc.OpenPoll? then answers[0] else Tick;
      StepNearer(c, p, pc, e);
      var r := Act(c, p, pc, e);
      es, p2, pc2 := Ends(c, r.pool, r.pc, if pc.OpenPoll? then answers[1..] else answers);
      Onward(c, p, pc, e, r.pool, r.pc, es, p2, pc2);
      es := [e] + es;
    }
  }

  // ----- the weak compare-exchange -----

  /** A slot is gained exactly when the count is still the one that was seen and below `max`,
      and the exchange does not fail for no reason; else the actor goes on with the count it
      has found, or parks when the one it has seen was `max`. */
  lemma ExchangeExactly(c: Config, s: State, t: nat, e: Event)
    requires t < |s.actors| && s.actors[t].ReserveSwap?
    ensures Enabled(c, s, t, e)
    ensures var seen, slots, end := s.actors[t].seen, s.pool.slots, Step(c, s, t, e);
      (end.pool.slots == slots + 1 <==> seen == slots < c.max && e != Spurious)
      && (end.pool.slots != slots + 1 ==> end.pool == s.pool)
      && end.actors[t] == if seen >= c.max then Park
                          else if end.pool.slots == slots + 1 then PushNew else ReserveSwap(slots)
  {
  }

  // ----- the uses of the pool, over runs -----

  /** A return that is not disturbed: the connection is kept if and only if the handle is
      attached and the pool is short of idle connections, else its slot comes free; the
      checkout is settled, and nobody waits. */
  lemma ReturnIs(c: Config, s: State, t: nat, attached: bool, steps: seq<(nat, Event)>, end: State)
    requires Inv(c, s) && Uses(c, s, t, BeginReturn(attached), steps, end)
    ensures s.actors[t].Using? && end.actors == s.actors[t := Resting]
    ensures var p, id, kept := s.pool, s.actors[t].id, attached && |s.pool.idle| < c.min;
      end.pool.idle == p.idle + (if kept then [true] else [])
      && end.pool.slots == p.slots - (if kept then 0 else 1)
      && end.pool.ongoing == p.ongoing - 1 && end.pool.waiting == 0 && end.pool.opening == p.opening
      && id < |p.settled| && p.settled[id] == 0 && end.pool.settled == p.settled[id := 1] && !end.pool.warned
  {
    var pc := s.actors[t];
    InvLocal(c, s, t);
    assert pc.Using?;
    Unsettled(c, s, t);
    ThroughAlone(c, Step(c, s, t, BeginReturn(attached)), t, steps, end);
    assert Local(c, s.pool, Using(pc.id, false));
    ReturnEnds(c, s.pool, pc.id, attached, EventsOf(steps), end.pool, end.actors[t]);
    hide Inv, Run, Through, Alone;
  }

  /** A checkout that is held has not passed its slot on. */
  lemma Unsettled(c: Config, s: State, t: nat)
    requires Inv(c, s) && t < |s.actors| && HoldsCheckout(s.actors[t])
    ensures s.actors[t].id < |s.pool.settled| && s.pool.settled[s.actors[t].id] == 0
  {
    var id := s.actors[t].id;
    TotalUpdate(Holding(id), s.actors, t, s.actors[t]);
    assert Settled(s.pool, id) + Total(Holding(id), s.actors) == 1;
  }

  /** A transport dropped outside a handle, undisturbed: its slot comes free, the checkout is
      settled, and nobody waits. */
  lemma DropIs(c: Config, s: State, t: nat, steps: seq<(nat, Event)>, end: State)
    requires Inv(c, s) && Uses(c, s, t, BeginDrop, steps, end)
    ensures s.actors[t].Using? && end.actors == s.actors[t := Resting]
    ensures var p, id := s.pool, s.actors[t].id;
      end.pool.idle == p.idle && end.pool.slots == p.slots - 1 && end.pool.ongoing == p.ongoing - 1
      && end.pool.waiting == 0 && end.pool.opening == p.opening
      && id < |p.settled| && p.settled[id] == 0 && end.pool.settled == p.settled[id := 1] && !end.pool.warned
  {
    var pc := s.actors[t];
    InvLocal(c, s, t);
    assert pc.Using?;
    Unsettled(c, s, t);
    ThroughAlone(c, Step(c, s, t, BeginDrop), t, steps, end);
    assert Local(c, s.pool, Using(pc.id, false));
    DropEnds(c, s.pool, pc.id, EventsOf(steps), end.pool, end.actors[t]);
    hide Inv, Run, Through, Alone;
  }

  /** A poll that is not disturbed asks the first four pending opens, or all there are. Those
      that are ready become idle, those that fail free their slots, and either wakes the
      waiters. Then the oldest idle connection is checked out; without one the poll ends after
      a failed open, else it opens one more if there is a slot, else it waits. */
  lemma PollIs(c: Config, s: State, t: nat, steps: seq<(nat, Event)>, end: State)
    requires Inv(c, s) && Uses(c, s, t, BeginPoll, steps, end)
    ensures var p, met := s.pool, Met(c, s.pool, OpenLen, EventsOf(steps));
      |met| == (if p.opening < 4 then p.opening else 4)
      && (forall i :: 0 <= i < |met| ==> Answered(met[i]))
      && var ready, lost := Count(met, FutureReady), Count(met, FutureFailed);
         ready + lost <= |met| && lost <= p.slots
         && var waiting := if ready + lost > 0 then 0 else p.waiting;
         var idle, opening, slots := p.idle + Trues(ready), p.opening - ready - lost, p.slots - lost;
         if |idle| > 0 then
           end.actors == s.actors[t := Using(|p.settled|, false)]
           && end.pool == Pool(slots, p.ongoing + 1, opening, idle[1..], waiting, p.settled + [0], false)
         else
           end.actors == s.actors[t := Resting]
           && end.pool == if lost > 0 then Pool(slots, p.ongoing, opening, [], waiting, p.settled, false)
                          else if slots < c.max then
                            Pool(slots + 1, p.ongoing, opening + 1, [], waiting, p.settled, false)
                          else Pool(slots, p.ongoing, opening, [], waiting + 1, p.settled, false)
  {
    InvLocal(c, s, t);
    ThroughAlone(c, Step(c, s, t, BeginPoll), t, steps, end);
    PollEnds(c, s.pool, EventsOf(steps), end.pool, end.actors[t]);
    hide Inv, Run, Through, Alone, Met, Count;
  }

  /** Every use of the pool ends when its actor runs alone, whatever the pending opens answer. */
  lemma UseEnds(c: Config, s: State, t: nat, e: Event, answers: seq<Event>)
      returns (steps: seq<(nat, Event)>, end: State)
    requires t < |s.actors| && AtEase(s.actors[t]) && Enabled(c, s, t, e)
    requires |answers| >= 4 && forall i :: 0 <= i < |answers| ==> Answered(answers[i])
    ensures Uses(c, s, t, e, steps, end)
    ensures e == BeginPoll ==> Met(c, s.pool, OpenLen, EventsOf(steps)) <= answers
  {
    var s1 := Step(c, s, t, e);
    var es, p2, pc2 := Ends(c, s1.pool, s1.actors[t], answers);
    steps, end := StepsOf(t, es), State(p2, s1.actors[t := pc2]);
    AloneThrough(c, s1, t, es, p2, pc2);
    assert EventsOf(steps) == es;
  }

  /** An actor that was interrupted anywhere can end its use, too. */
  lemma Finishes(c: Config, s: State, t: nat) returns (steps: seq<(nat, Event)>, end: State)
    requires t < |s.actors|
    ensures Through(c, s, t, steps, end) && Run(c, s, steps, end)
  {
    var n := Wants(s.actors[t]);
    var es, p2, pc2 := Ends(c, s.pool, s.actors[t], seq(n, _ => FuturePending));
    steps, end := StepsOf(t, es), State(p2, s.actors[t := pc2]);
    AloneThrough(c, s, t, es, p2, pc2);
    ThroughAlone(c, s, t, steps, end);
  }
}
