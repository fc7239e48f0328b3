/** The connection pool, one atomic operation a step, under every interleaving of any
    number of actors. An actor is one use of the pool: it polls for a handle, holds the
    handle, and gives it back; a task with several handles is several actors. */
module PoolSteps {
  datatype Config = Config(min: nat, max: nat)

  const POLL_BUDGET: nat := 4

  /** Where an actor stands: the next atomic operation it performs. `id` numbers the
      checkouts; `inside` is the flag that travels with the transport. */
  datatype PC =
    | Resting
    // handle_futures
    | OpenLen                                             // read new.len()
    | OpenPop(left: nat, wake: bool, failed: bool)        // pop a future
    | OpenPoll(left: nat, wake: bool, failed: bool)       // poll the future in hand
    | OpenReady(left: nat, failed: bool)                  // push the new connection to idle
    | OpenAgain(left: nat, wake: bool, failed: bool)      // push the future back
    | OpenFree(left: nat, failed: bool)                   // release the slot of a lost future
    | OpenWake(failed: bool)                              // wake the waiters
    // take_conn
    | TakePop(failed: bool)
    | TakeMark(id: nat, inside: bool)
    | TakeCount(id: nat, inside: bool)
    // try_reserve_conn and what follows
    | ReserveLoad
    | ReserveSwap(seen: nat)
    | PushNew
    | Unreserve
    | Park
    // a handle in the hands of a client
    | Using(id: nat, inside: bool)
    // return_conn
    | ReturnMark(id: nat, attached: bool, inside: bool)
    | ReturnCheck(id: nat, attached: bool, inside: bool)
    | ReturnLen(id: nat, attached: bool, inside: bool)
    | ReturnPush(id: nat, inside: bool)
    | ReturnSub(id: nat, kept: bool)
    | ReturnFree(id: nat)
    // drop of a transport outside a handle, and release_conn
    | DropLoad(id: nat, inside: bool)
    | ReleaseCheck(id: nat)
    | ReleaseSub(id: nat)
    | ReleaseFree(id: nat)
    | WakeAll

  /** The shared state. `idle` keeps the `inside` flag of each idle connection; `settled`
      counts for each checkout how often its slot was passed on; `warned` records that a
      guard fired, a push was refused or a transport was dropped without a release. */
  datatype Pool = Pool(
    slots: nat, ongoing: nat, opening: nat, idle: seq<bool>, waiting: nat, settled: seq<nat>, warned: bool)

  datatype State = State(pool: Pool, actors: seq<PC>)

  /** What an actor meets or decides: the answer of a future, a spurious failure of the
      weak compare-exchange, or the next thing to do with the pool. */
  datatype Event =
    | Tick | FutureReady | FuturePending | FutureFailed | Spurious
    | BeginPoll | BeginReturn(attached: bool) | BeginDrop

  /** `Blocked` when the event does not apply to where the actor stands. */
  datatype Outcome = Blocked | Then(pool: Pool, pc: PC)

  function Warn(p: Pool): Pool { p.(warned := true) }

  function Settle(p: Pool, id: nat): Pool {
    if id < |p.settled| then p.(settled := p.settled[id := p.settled[id] + 1]) else p
  }

  /** `release_conn_slot`: a checked subtraction. */
  function FreeSlot(p: Pool): Pool {
    if p.slots == 0 then Warn(p) else p.(slots := p.slots - 1)
  }

  /** `fetch_sub`, which wraps around. */
  function SubOngoing(p: Pool): Pool {
    p.(ongoing := if p.ongoing == 0 then 0xFFFF_FFFF_FFFF_FFFF else p.ongoing - 1)
  }

  /** `wake_tasks`, one waker a step. */
  function WakeOne(p: Pool, pc: PC, next: PC): Outcome {
    if p.waiting > 0 then Then(p.(waiting := p.waiting - 1), pc) else Then(p, next)
  }

  function StepOpen(c: Config, p: Pool, pc: PC, e: Event): Outcome {
    match pc
    case OpenLen => Then(p, OpenPop(if p.opening < POLL_BUDGET then p.opening else POLL_BUDGET, false, false))
    case OpenPop(left, wake, failed) =>
      if left == 0 || p.opening == 0 then Then(p, if wake then OpenWake(failed) else TakePop(failed))
      else Then(p.(opening := p.opening - 1), OpenPoll(left - 1, wake, failed))
    case OpenPoll(left, wake, failed) =>
      if e == FutureReady then Then(p, OpenReady(left, failed))
      else if e == FuturePending then Then(p, OpenAgain(left, wake, failed))
      else if e == FutureFailed then Then(p, OpenFree(left, true))
      else Blocked
    case OpenReady(left, failed) =>
      if |p.idle| < c.max then Then(p.(idle := p.idle + [true]), OpenPop(left, true, failed))
      else Then(Warn(p), OpenFree(left, failed))
    case OpenAgain(left, wake, failed) =>
      if p.opening < c.max then Then(p.(opening := p.opening + 1), OpenPop(left, wake, failed))
      else Then(Warn(p), OpenFree(left, failed))
    case OpenFree(left, failed) => Then(FreeSlot(p), OpenPop(left, true, failed))
    case OpenWake(failed) => WakeOne(p, pc, TakePop(failed))
    case _ => Blocked
  }

  function StepTake(c: Config, p: Pool, pc: PC, e: Event): Outcome {
    match pc
    case TakePop(failed) =>
      if |p.idle| > 0 then
        Then(p.(idle := p.idle[1..], settled := p.settled + [0]), TakeMark(|p.settled|, p.idle[0]))
      else Then(p, if failed then Resting else ReserveLoad)
    case TakeMark(id, _) => Then(p, TakeCount(id, false))
    case TakeCount(id, inside) => Then(p.(ongoing := p.ongoing + 1), Using(id, inside))
    case ReserveLoad => Then(p, ReserveSwap(p.slots))
    case ReserveSwap(seen) =>
      if seen >= c.max then Then(p, Park)
      else if p.slots == seen && e != Spurious then Then(p.(slots := seen + 1), PushNew)
      else Then(p, ReserveSwap(p.slots))
    case PushNew =>
      if p.opening < c.max then Then(p.(opening := p.opening + 1), Resting) else Then(Warn(p), Unreserve)
    case Unreserve => Then(FreeSlot(p), Park)
    case Park => Then(p.(waiting := p.waiting + 1), Resting)
    case _ => Blocked
  }

  function StepReturn(c: Config, p: Pool, pc: PC): Outcome {
    match pc
    case ReturnMark(id, attached, _) => Then(p, ReturnCheck(id, attached, true))
    case ReturnCheck(id, attached, inside) =>
      if p.ongoing == 0 then Then(Warn(p), Resting) else Then(p, ReturnLen(id, attached, inside))
    case ReturnLen(id, attached, inside) =>
      Then(p, if |p.idle| < c.min && attached then ReturnPush(id, inside) else ReturnSub(id, false))
    case ReturnPush(id, inside) =>
      if |p.idle| < c.max then Then(Settle(p.(idle := p.idle + [inside]), id), ReturnSub(id, true))
      else Then(Warn(p), ReturnSub(id, false))
    case ReturnSub(id, kept) => Then(SubOngoing(p), if kept then WakeAll else ReturnFree(id))
    case ReturnFree(id) => Then(Settle(FreeSlot(p), id), WakeAll)
    case _ => Blocked
  }

  function StepDrop(p: Pool, pc: PC): Outcome {
    match pc
    case DropLoad(id, inside) => if inside then Then(Warn(p), Resting) else Then(p, ReleaseCheck(id))
    case ReleaseCheck(id) => if p.ongoing == 0 then Then(Warn(p), Resting) else Then(p, ReleaseSub(id))
    case ReleaseSub(id) => Then(SubOngoing(p), ReleaseFree(id))
    case ReleaseFree(id) => Then(Settle(FreeSlot(p), id), WakeAll)
    case WakeAll => WakeOne(p, pc, Resting)
    case _ => Blocked
  }

  predicate Opening(pc: PC) {
    pc.OpenLen? || pc.OpenPop? || pc.OpenPoll? || pc.OpenReady? || pc.OpenAgain? || pc.OpenFree? || pc.OpenWake?
  }

  predicate Taking(pc: PC) {
    pc.TakePop? || pc.TakeMark? || pc.TakeCount? || pc.ReserveLoad? || pc.ReserveSwap? || pc.PushNew?
    || pc.Unreserve? || pc.Park?
  }

  predicate Returning(pc: PC) {
    pc.ReturnMark? || pc.ReturnCheck? || pc.ReturnLen? || pc.ReturnPush? || pc.ReturnSub? || pc.ReturnFree?
  }

  /** One atomic operation of an actor that stands at `pc`. */
  function Act(c: Config, p: Pool, pc: PC, e: Event): Outcome {
    if pc.Resting? then (if e == BeginPoll then Then(p, OpenLen) else Blocked)
    else if pc.Using? then
      (if e.BeginReturn? then Then(p, ReturnMark(pc.id, e.attached, pc.inside))
       else if e == BeginDrop then Then(p, DropLoad(pc.id, pc.inside))
       else Blocked)
    else if Opening(pc) then StepOpen(c, p, pc, e)
    else if Taking(pc) then StepTake(c, p, pc, e)
    else if Returning(pc) then StepReturn(c, p, pc)
    else StepDrop(p, pc)
  }

  predicate Enabled(c: Config, s: State, t: nat, e: Event) {
    t < |s.actors| && Act(c, s.pool, s.actors[t], e).Then?
  }

  function Step(c: Config, s: State, t: nat, e: Event): State
    requires Enabled(c, s, t, e)
  {
    var r := Act(c, s.pool, s.actors[t], e);
    State(r.pool, s.actors[t := r.pc])
  }

  predicate Initial(s: State) {
    s.pool == Pool(0, 0, 0, [], 0, [], false)
    && forall t :: 0 <= t < |s.actors| ==> s.actors[t] == Resting
  }

  /** The steps of a run: which actor moves, and the event. */
  predicate Run(c: Config, s: State, steps: seq<(nat, Event)>, end: State)
    decreases |steps|
  {
    if |steps| == 0 then s == end
    else
      var (t, e) := steps[0];
      Enabled(c, s, t, e) && Run(c, Step(c, s, t, e), steps[1..], end)
  }

  // ----- who owns what -----

  datatype Measure = Slots | Busy | Holding(id: nat) | Client

  function One(b: bool): nat { if b then 1 else 0 }

  /** Does an actor hold a checked-out transport whose slot it has not passed on. */
  predicate HoldsCheckout(pc: PC) {
    pc.TakeMark? || pc.TakeCount? || pc.Using? || pc.ReturnMark? || pc.ReturnCheck? || pc.ReturnLen?
    || pc.ReturnPush? || (pc.ReturnSub? && !pc.kept) || pc.ReturnFree?
    || pc.DropLoad? || pc.ReleaseCheck? || pc.ReleaseSub? || pc.ReleaseFree?
  }

  /** Does it own a connection slot. */
  predicate OwnsSlot(pc: PC) {
    pc.OpenPoll? || pc.OpenReady? || pc.OpenAgain? || pc.OpenFree? || pc.PushNew? || pc.Unreserve?
    || HoldsCheckout(pc)
  }

  /** Is it counted in `ongoing`. */
  predicate Counted(pc: PC) {
    pc.Using? || pc.ReturnMark? || pc.ReturnCheck? || pc.ReturnLen? || pc.ReturnPush? || pc.ReturnSub?
    || pc.DropLoad? || pc.ReleaseCheck? || pc.ReleaseSub?
  }

  function Weight(m: Measure, pc: PC): nat {
    match m
    case Slots => One(OwnsSlot(pc))
    case Busy => One(Counted(pc))
    case Holding(id) => One(HoldsCheckout(pc) && pc.id == id)
    case Client => One(pc.Using?)
  }

  /** How many actors weigh in. */
  function Total(m: Measure, pcs: seq<PC>): nat {
    if |pcs| == 0 then 0 else Weight(m, pcs[0]) + Total(m, pcs[1..])
  }

  lemma {:induction false} TotalUpdate(m: Measure, pcs: seq<PC>, t: nat, pc: PC)
    requires t < |pcs|
    ensures Total(m, pcs[t := pc]) == Total(m, pcs) - Weight(m, pcs[t]) + Weight(m, pc)
    ensures Weight(m, pcs[t]) <= Total(m, pcs)
  {
    hide Weight;
    if t == 0 {
      assert pcs[0 := pc][1..] == pcs[1..];
    } else {
      assert pcs[t := pc][1..] == pcs[1..][t - 1 := pc];
      TotalUpdate(m, pcs[1..], t - 1, pc);
    }
  }

  lemma {:induction false} AllResting(m: Measure, pcs: seq<PC>)
    requires forall t :: 0 <= t < |pcs| ==> pcs[t] == Resting
    ensures Total(m, pcs) == 0
  {
    if |pcs| > 0 { AllResting(m, pcs[1..]); }
  }

  /** The `inside` flag says where the transport is. */
  predicate FlagRight(pc: PC) {
    match pc
    case TakeMark(_, inside) => inside
    case TakeCount(_, inside) => !inside
    case Using(_, inside) => !inside
    case ReturnMark(_, _, inside) => !inside
    case ReturnCheck(_, _, inside) => inside
    case ReturnLen(_, _, inside) => inside
    case ReturnPush(_, inside) => inside
    case DropLoad(_, inside) => !inside
    case _ => true
  }

  /** How often checkout `id` has passed its slot on. */
  function Settled(p: Pool, id: nat): nat {
    if id < |p.settled| then p.settled[id] else 1
  }

  /** What an actor can rely on by owning what it owns. */
  predicate Local(c: Config, p: Pool, pc: PC) {
    p.opening + |p.idle| + Weight(Slots, pc) <= p.slots <= c.max
    && Weight(Busy, pc) <= p.ongoing
    && (HoldsCheckout(pc) ==> pc.id < |p.settled|)
    && FlagRight(pc) && !p.warned
    && forall i :: 0 <= i < |p.idle| ==> p.idle[i]
  }

  /** The step moves ownership and nothing else: what the shared counters gain, the actor gains. */
  ghost predicate Balanced(c: Config, p: Pool, pc: PC, p2: Pool, pc2: PC) {
    p2.slots - p2.opening - |p2.idle| - Weight(Slots, pc2) == p.slots - p.opening - |p.idle| - Weight(Slots, pc)
    && p2.ongoing - Weight(Busy, pc2) == p.ongoing - Weight(Busy, pc)
    && p2.slots <= c.max && FlagRight(pc2) && !p2.warned
    && |p.settled| <= |p2.settled|
    && (HoldsCheckout(pc2) ==> pc2.id < |p2.settled|)
    && (forall id: nat {:trigger Settled(p2, id)} ::
          Settled(p2, id) + Weight(Holding(id), pc2) == Settled(p, id) + Weight(Holding(id), pc))
    && forall i :: 0 <= i < |p2.idle| ==> p2.idle[i]
  }

  lemma BalancedQueue(c: Config, p: Pool, pc: PC, e: Event)
    requires Local(c, p, pc) && StepOpen(c, p, pc, e).Then? && (pc.OpenReady? || pc.OpenAgain? || pc.OpenFree?)
    ensures Balanced(c, p, pc, StepOpen(c, p, pc, e).pool, StepOpen(c, p, pc, e).pc)
  {
  }

  lemma BalancedPoll(c: Config, p: Pool, pc: PC, e: Event)
    requires Local(c, p, pc) && StepOpen(c, p, pc, e).Then? && (pc.OpenPop? || pc.OpenPoll?)
    ensures Balanced(c, p, pc, StepOpen(c, p, pc, e).pool, StepOpen(c, p, pc, e).pc)
  {
    var pc2 := StepOpen(c, p, pc, e).pc;
    assert !HoldsCheckout(pc) && !HoldsCheckout(pc2) && Weight(Busy, pc) == 0 == Weight(Busy, pc2);
  }

  lemma BalancedSame(c: Config, p: Pool, pc: PC, e: Event)
    requires Local(c, p, pc) && StepOpen(c, p, pc, e).Then? && (pc.OpenLen? || pc.OpenWake?)
    ensures Balanced(c, p, pc, StepOpen(c, p, pc, e).pool, StepOpen(c, p, pc, e).pc)
  {
    var p2, pc2 := StepOpen(c, p, pc, e).pool, StepOpen(c, p, pc, e).pc;
    assert pc2.OpenPop? || pc2.OpenWake? || pc2.TakePop?;
    forall id: nat
      ensures Settled(p2, id) + Weight(Holding(id), pc2) == Settled(p, id) + Weight(Holding(id), pc)
    {
    }
  }

  lemma BalancedOpen(c: Config, p: Pool, pc: PC, e: Event)
    requires Local(c, p, pc) && StepOpen(c, p, pc, e).Then?
    ensures Balanced(c, p, pc, StepOpen(c, p, pc, e).pool, StepOpen(c, p, pc, e).pc)
  {
    assert pc.OpenReady? || pc.OpenAgain? || pc.OpenFree? || pc.OpenPop? || pc.OpenPoll? || pc.OpenLen? || pc.OpenWake?;
    if pc.OpenReady? || pc.OpenAgain? || pc.OpenFree? {
      hide *;
      BalancedQueue(c, p, pc, e);
    } else if pc.OpenPop? || pc.OpenPoll? {
      hide *;
      BalancedPoll(c, p, pc, e);
    } else {
      hide *;
      BalancedSame(c, p, pc, e);
    }
  }

  lemma BalancedReserve(c: Config, p: Pool, pc: PC, e: Event)
    requires Local(c, p, pc) && StepTake(c, p, pc, e).Then?
    requires pc.ReserveLoad? || pc.ReserveSwap? || pc.PushNew? || pc.Unreserve? || pc.Park?
    ensures Balanced(c, p, pc, StepTake(c, p, pc, e).pool, StepTake(c, p, pc, e).pc)
  {
  }

  lemma BalancedTake(c: Config, p: Pool, pc: PC, e: Event)
    requires Local(c, p, pc) && StepTake(c, p, pc, e).Then?
    ensures Balanced(c, p, pc, StepTake(c, p, pc, e).pool, StepTake(c, p, pc, e).pc)
  {
    if pc.ReserveLoad? || pc.ReserveSwap? || pc.PushNew? || pc.Unreserve? || pc.Park? {
      hide *;
      BalancedReserve(c, p, pc, e);
    }
  }

  lemma BalancedReturn(c: Config, p: Pool, pc: PC)
    requires Local(c, p, pc) && StepReturn(c, p, pc).Then?
    ensures Balanced(c, p, pc, StepReturn(c, p, pc).pool, StepReturn(c, p, pc).pc)
  {
  }

  lemma BalancedDrop(c: Config, p: Pool, pc: PC)
    requires Local(c, p, pc) && StepDrop(p, pc).Then?
    ensures Balanced(c, p, pc, StepDrop(p, pc).pool, StepDrop(p, pc).pc)
  {
  }

  lemma BalancedAct(c: Config, p: Pool, pc: PC, e: Event)
    requires Local(c, p, pc) && Act(c, p, pc, e).Then?
    ensures Balanced(c, p, pc, Act(c, p, pc, e).pool, Act(c, p, pc, e).pc)
  {
    if !pc.Resting? && !pc.Using? {
      hide StepOpen, StepTake, StepReturn, StepDrop, Local, Balanced;
      if Opening(pc) {
        BalancedOpen(c, p, pc, e);
      } else if Taking(pc) {
        BalancedTake(c, p, pc, e);
      } else if Returning(pc) {
        BalancedReturn(c, p, pc);
      } else {
        BalancedDrop(c, p, pc);
      }
    }
  }

  /** Slot conservation: every slot has exactly one owner, a pending open, an idle
      connection or an actor; `ongoing` counts the checkouts; and every checkout has passed
      its slot on once, or has not and is held by exactly one actor. */
  ghost predicate Inv(c: Config, s: State) {
    var p := s.pool;
    p.slots == p.opening + |p.idle| + Total(Slots, s.actors)
    && p.slots <= c.max
    && p.ongoing == Total(Busy, s.actors)
    && (forall id: nat {:trigger Settled(p, id)} :: Settled(p, id) + Total(Holding(id), s.actors) == 1)
    && (forall i :: 0 <= i < |p.idle| ==> p.idle[i])
    && (forall t :: 0 <= t < |s.actors| ==> FlagRight(s.actors[t]))
    && !p.warned
  }

  lemma InvInitial(c: Config, s: State)
    requires Initial(s)
    ensures Inv(c, s)
  {
    AllResting(Slots, s.actors);
    AllResting(Busy, s.actors);
    forall id: nat ensures Total(Holding(id), s.actors) == 0 {
      AllResting(Holding(id), s.actors);
    }
  }

  lemma InvLocal(c: Config, s: State, t: nat)
    requires Inv(c, s) && t < |s.actors|
    ensures Local(c, s.pool, s.actors[t])
  {
    var p, pc := s.pool, s.actors[t];
    TotalUpdate(Slots, s.actors, t, pc);
    TotalUpdate(Busy, s.actors, t, pc);
    if HoldsCheckout(pc) {
      TotalUpdate(Holding(pc.id), s.actors, t, pc);
      assert Settled(p, pc.id) == 0;
    }
  }

  /** Every atomic operation of every actor keeps the conservation law. */
  lemma InvStep(c: Config, s: State, t: nat, e: Event)
    requires Inv(c, s) && Enabled(c, s, t, e)
    ensures Inv(c, Step(c, s, t, e))
  {
    var p, pc, s2 := s.pool, s.actors[t], Step(c, s, t, e);
    InvLocal(c, s, t);
    BalancedAct(c, p, pc, e);
    hide Act, Weight, Total, Settled, FlagRight, HoldsCheckout;
    TotalUpdate(Slots, s.actors, t, s2.actors[t]);
    TotalUpdate(Busy, s.actors, t, s2.actors[t]);
    forall id: nat ensures Settled(s2.pool, id) + Total(Holding(id), s2.actors) == 1 {
      TotalUpdate(Holding(id), s.actors, t, s2.actors[t]);
      assert Settled(p, id) + Total(Holding(id), s.actors) == 1;
    }
  }

  lemma {:induction false} InvRun(c: Config, s: State, steps: seq<(nat, Event)>, end: State)
    requires Inv(c, s) && Run(c, s, steps, end)
    ensures Inv(c, end)
    decreases |steps|
  {
    hide Inv;
    if |steps| > 0 {
      var (t, e) := steps[0];
      InvStep(c, s, t, e);
      InvRun(c, Step(c, s, t, e), steps[1..], end);
    }
  }

  // ----- what follows for every run -----

  /** In every state that a run reaches, for any number of actors in any interleaving. */
  lemma PoolSafety(c: Config, s: State, steps: seq<(nat, Event)>, end: State)
    requires Initial(s) && Run(c, s, steps, end)
    ensures Inv(c, end)
    // never more connections than `max`, whether opening, idle or with a client
    ensures end.pool.opening + |end.pool.idle| + Total(Client, end.actors) <= end.pool.slots <= c.max
    // no guard ever fired, no push was refused, no transport was dropped without a release
    ensures !end.pool.warned
    // each checkout has passed its slot on at most once, and not before its holder did
    ensures forall id :: 0 <= id < |end.pool.settled| ==> Settled(end.pool, id) + Total(Holding(id), end.actors) == 1
  {
    InvInitial(c, s);
    InvRun(c, s, steps, end);
    hide *;
    ClientsOwnSlots(end.actors);
    InvBounds(c, end);
  }

  lemma {:induction false} ClientsOwnSlots(pcs: seq<PC>)
    ensures Total(Client, pcs) <= Total(Slots, pcs)
  {
    if |pcs| > 0 { ClientsOwnSlots(pcs[1..]); }
  }

  lemma InvBounds(c: Config, s: State)
    requires Inv(c, s)
    ensures s.pool.opening + |s.pool.idle| + Total(Slots, s.actors) == s.pool.slots <= c.max && !s.pool.warned
    ensures forall id :: 0 <= id < |s.pool.settled| ==> Settled(s.pool, id) + Total(Holding(id), s.actors) == 1
  {
  }

  /** A queue has room whenever an actor is about to push into it, and the guards find
      what they look for. */
  lemma NoBranchOfLoss(c: Config, s: State, t: nat)
    requires Inv(c, s) && t < |s.actors|
    ensures var p, pc := s.pool, s.actors[t];
      (pc.OpenReady? ==> |p.idle| < c.max) && (pc.OpenAgain? ==> p.opening < c.max)
      && (pc.PushNew? ==> p.opening < c.max) && (pc.ReturnPush? ==> |p.idle| < c.max)
      && (pc.ReturnCheck? || pc.ReleaseCheck? ==> p.ongoing > 0)
      && (pc.ReturnFree? || pc.ReleaseFree? || pc.OpenFree? ==> p.slots > 0)
      && (pc.DropLoad? ==> !pc.inside)
  {
    InvLocal(c, s, t);
    hide Inv, Total;
  }

  /** When every actor rests, all slots are pending opens and idle connections, nothing is
      counted as ongoing, and every checkout has been settled. */
  lemma AtRest(c: Config, s: State)
    requires Inv(c, s) && forall t :: 0 <= t < |s.actors| ==> s.actors[t] == Resting
    ensures s.pool.slots == s.pool.opening + |s.pool.idle| && s.pool.ongoing == 0
    ensures forall id :: 0 <= id < |s.pool.settled| ==> s.pool.settled[id] == 1
  {
    AllResting(Slots, s.actors);
    AllResting(Busy, s.actors);
    forall id | 0 <= id < |s.pool.settled| ensures s.pool.settled[id] == 1 {
      AllResting(Holding(id), s.actors);
      assert Settled(s.pool, id) == s.pool.settled[id];
    }
  }

  // ----- what does not hold at this granularity -----

  ghost predicate Reachable(c: Config, s: State) {
    exists start, steps :: Initial(start) && Run(c, start, steps, s)
  }

  lemma {:induction false} RunLonger(c: Config, s: State, steps: seq<(nat, Event)>, mid: State, t: nat, e: Event)
    requires Run(c, s, steps, mid) && Enabled(c, mid, t, e)
    ensures Run(c, s, steps + [(t, e)], Step(c, mid, t, e))
    decreases |steps|
  {
    hide Act;
    if |steps| == 0 {
      assert [(t, e)][1..] == [];
      assert steps + [(t, e)] == [(t, e)];
    } else {
      var (u, f) := steps[0];
      RunLonger(c, Step(c, s, u, f), steps[1..], mid, t, e);
      assert (steps + [(t, e)])[1..] == steps[1..] + [(t, e)];
    }
  }

  lemma Go(c: Config, s: State, t: nat, e: Event, pool: Pool, pc: PC) returns (s2: State)
    requires Reachable(c, s) && t < |s.actors| && Act(c, s.pool, s.actors[t], e) == Then(pool, pc)
    ensures Reachable(c, s2) && s2 == State(pool, s.actors[t := pc])
  {
    s2 := Step(c, s, t, e);
    var start, steps :| Initial(start) && Run(c, start, steps, s);
    RunLonger(c, start, steps, s, t, e);
  }

  const ONE_SLOT := Config(0, 1)
  const NONE_HELD := Pool(0, 0, 0, [], 0, [], false)    // nothing reserved
  const ONE_HELD := Pool(1, 0, 0, [], 0, [], false)     // the slot is with an actor
  const ONE_OPEN := Pool(1, 0, 1, [], 0, [], false)     // the slot is with a pending open

  lemma StartReachable(c: Config, s: State)
    requires Initial(s)
    ensures Reachable(c, s)
  {
    assert Run(c, s, [], s);
  }

  lemma FirstOpens() returns (s: State)
    ensures Reachable(ONE_SLOT, s) && s == State(ONE_OPEN, [Resting, Resting])
  {
    s := State(NONE_HELD, [Resting, Resting]);
    StartReachable(ONE_SLOT, s);
    hide Run, Reachable, Initial, Enabled;
    s := Go(ONE_SLOT, s, 0, BeginPoll, NONE_HELD, OpenLen);
    s := Go(ONE_SLOT, s, 0, Tick, NONE_HELD, OpenPop(0, false, false));
    s := Go(ONE_SLOT, s, 0, Tick, NONE_HELD, TakePop(false));
    s := Go(ONE_SLOT, s, 0, Tick, NONE_HELD, ReserveLoad);
    s := Go(ONE_SLOT, s, 0, Tick, NONE_HELD, ReserveSwap(0));
    s := Go(ONE_SLOT, s, 0, Tick, ONE_HELD, PushNew);
    s := Go(ONE_SLOT, s, 0, Tick, ONE_OPEN, Resting);
  }

  lemma SecondFails(s0: State) returns (s: State)
    requires Reachable(ONE_SLOT, s0) && s0 == State(ONE_OPEN, [Resting, Resting])
    ensures Reachable(ONE_SLOT, s) && s == State(ONE_OPEN, [Resting, Park])
  {
    hide Run, Reachable, Initial, Enabled;
    s := Go(ONE_SLOT, s0, 1, BeginPoll, ONE_OPEN, OpenLen);
    s := Go(ONE_SLOT, s, 1, Tick, ONE_OPEN, OpenPop(1, false, false));
    s := Go(ONE_SLOT, s, 1, Tick, ONE_HELD, OpenPoll(0, false, false));
    s := Go(ONE_SLOT, s, 1, FuturePending, ONE_HELD, OpenAgain(0, false, false));
    s := Go(ONE_SLOT, s, 1, Tick, ONE_OPEN, OpenPop(0, false, false));
    s := Go(ONE_SLOT, s, 1, Tick, ONE_OPEN, TakePop(false));
    s := Go(ONE_SLOT, s, 1, Tick, ONE_OPEN, ReserveLoad);
    s := Go(ONE_SLOT, s, 1, Tick, ONE_OPEN, ReserveSwap(1));
    s := Go(ONE_SLOT, s, 1, Tick, ONE_OPEN, Park);
  }

  lemma OpenFails(s0: State) returns (s: State)
    requires Reachable(ONE_SLOT, s0) && s0 == State(ONE_OPEN, [Resting, Park])
    ensures Reachable(ONE_SLOT, s) && s == State(NONE_HELD, [Resting, Park])
  {
    hide Run, Reachable, Initial, Enabled;
    s := Go(ONE_SLOT, s0, 0, BeginPoll, ONE_OPEN, OpenLen);
    s := Go(ONE_SLOT, s, 0, Tick, ONE_OPEN, OpenPop(1, false, false));
    s := Go(ONE_SLOT, s, 0, Tick, ONE_HELD, OpenPoll(0, false, false));
    s := Go(ONE_SLOT, s, 0, FutureFailed, ONE_HELD, OpenFree(0, true));
    s := Go(ONE_SLOT, s, 0, Tick, NONE_HELD, OpenPop(0, true, true));
    s := Go(ONE_SLOT, s, 0, Tick, NONE_HELD, OpenWake(true));
    s := Go(ONE_SLOT, s, 0, Tick, NONE_HELD, TakePop(true));
    s := Go(ONE_SLOT, s, 0, Tick, NONE_HELD, Resting);
  }

  /** A waker can be lost: between a failed reservation and the push of the waker another
      actor frees the only slot and finds nobody to wake. Everybody rests, the slot is free,
      and the waker waits. With each poll taken as one step this cannot happen. */
  lemma LostWakeup() returns (s: State)
    ensures Reachable(ONE_SLOT, s) && s == State(Pool(0, 0, 0, [], 1, [], false), [Resting, Resting])
  {
    s := FirstOpens();
    s := SecondFails(s);
    s := OpenFails(s);
    s := Go(ONE_SLOT, s, 1, Tick, NONE_HELD.(waiting := 1), Resting);
  }

  // ----- what does hold at this granularity -----

  /** The actor has found no idle connection and is on its way to reserve a slot or to park. */
  predicate Window(pc: PC) {
    pc.ReserveLoad? || pc.ReserveSwap? || pc.Park?
  }

  /** The actor has freed a slot or passed a connection on, and has not finished waking yet. */
  predicate WillDrain(pc: PC) {
    (pc.OpenPop? && pc.wake) || (pc.OpenPoll? && pc.wake) || (pc.OpenAgain? && pc.wake)
    || pc.OpenReady? || pc.OpenFree? || pc.OpenWake?
    || pc.ReturnSub? || pc.ReturnFree? || pc.ReleaseFree? || pc.WakeAll?
  }

  /** The step finds no waiter left: the drain of the actor ends. */
  predicate EndsDrain(p: Pool, pc: PC) {
    (pc.OpenWake? || pc.WakeAll?) && p.waiting == 0
  }

  /** No drain ends while another actor stands in the window. */
  predicate Calm(s: State, t: nat)
    requires t < |s.actors|
  {
    EndsDrain(s.pool, s.actors[t]) ==> forall u :: 0 <= u < |s.actors| && u != t ==> !Window(s.actors[u])
  }

  /** A run in which every step is calm. */
  predicate CalmRun(c: Config, s: State, steps: seq<(nat, Event)>, end: State)
    decreases |steps|
  {
    if |steps| == 0 then s == end
    else
      var (t, e) := steps[0];
      Enabled(c, s, t, e) && Calm(s, t) && CalmRun(c, Step(c, s, t, e), steps[1..], end)
  }

  predicate Full(c: Config, p: Pool) {
    |p.idle| == 0 && p.slots == c.max
  }

  predicate SomeDrain(pcs: seq<PC>) {
    exists t :: 0 <= t < |pcs| && WillDrain(pcs[t])
  }

  /** What an actor in the window has seen is still so. */
  predicate Seen(c: Config, p: Pool, pc: PC) {
    match pc
    case ReserveLoad => |p.idle| == 0
    case ReserveSwap(seen) => |p.idle| == 0 && (seen >= c.max ==> p.slots == c.max)
    case Park => Full(c, p)
    case _ => true
  }

  /** Somebody is about to wake the waiters, or there is nothing to wake them for. */
  predicate Waits(c: Config, s: State) {
    (forall t :: 0 <= t < |s.actors| ==> !s.actors[t].Unreserve?)
    && (SomeDrain(s.actors) || Settles(c, s))
  }

  predicate Settles(c: Config, s: State) {
    (s.pool.waiting > 0 ==> Full(c, s.pool)) && forall t :: 0 <= t < |s.actors| ==> Seen(c, s.pool, s.actors[t])
  }

  /** A reserved slot always finds room in the queue of pending opens. */
  lemma NeverRefused(c: Config, p: Pool, pc: PC, e: Event)
    requires Local(c, p, pc) && Act(c, p, pc, e).Then? && !pc.Unreserve?
    ensures !Act(c, p, pc, e).pc.Unreserve?
  {
  }

  /** One step that neither begins nor ends a drain. */
  lemma QuietAct(c: Config, p: Pool, pc: PC, e: Event)
    requires Local(c, p, pc) && Act(c, p, pc, e).Then? && !WillDrain(pc) && !WillDrain(Act(c, p, pc, e).pc)
    requires Seen(c, p, pc) && (p.waiting > 0 ==> Full(c, p)) && !pc.Unreserve?
    ensures var r := Act(c, p, pc, e);
      Seen(c, r.pool, r.pc) && (r.pool.waiting > 0 ==> Full(c, r.pool))
      && |r.pool.idle| <= |p.idle| && p.slots <= r.pool.slots <= c.max
  {
  }

  /** A drain ends with nobody waiting, and nothing else changes. */
  lemma DrainEnds(c: Config, p: Pool, pc: PC, e: Event)
    requires Local(c, p, pc) && Act(c, p, pc, e).Then? && WillDrain(pc) && !WillDrain(Act(c, p, pc, e).pc)
    ensures EndsDrain(p, pc) && Act(c, p, pc, e).pool == p && !Window(Act(c, p, pc, e).pc)
  {
  }

  lemma WaitsStep(c: Config, s: State, t: nat, e: Event)
    requires Inv(c, s) && Waits(c, s) && Enabled(c, s, t, e) && Calm(s, t)
    ensures Waits(c, Step(c, s, t, e))
  {
    var p, pc := s.pool, s.actors[t];
    var r := Act(c, p, pc, e);
    var s2 := Step(c, s, t, e);
    InvLocal(c, s, t);
    NeverRefused(c, p, pc, e);
    hide Inv, Local, Act, Full, EndsDrain;
    if WillDrain(r.pc) {
      assert WillDrain(s2.actors[t]);
    } else if WillDrain(pc) {
      DrainEnds(c, p, pc, e);
      NobodySees(c, s, t, r.pc);
    } else if SomeDrain(s.actors) {
      var u :| 0 <= u < |s.actors| && WillDrain(s.actors[u]);
      assert s2.actors[u] == s.actors[u];
    } else {
      QuietAct(c, p, pc, e);
      forall u | 0 <= u < |s2.actors| ensures Seen(c, s2.pool, s2.actors[u]) {
        if u != t { SeenKept(c, p, r.pool, s.actors[u]); }
      }
    }
  }

  lemma SeenKept(c: Config, p: Pool, p2: Pool, pc: PC)
    requires Seen(c, p, pc) && |p2.idle| <= |p.idle| && p.slots <= p2.slots <= c.max
    ensures Seen(c, p2, pc)
  {
  }

  lemma NobodySees(c: Config, s: State, t: nat, pc: PC)
    requires t < |s.actors| && Calm(s, t) && EndsDrain(s.pool, s.actors[t]) && !Window(pc)
    ensures Settles(c, State(s.pool, s.actors[t := pc]))
  {
    var pcs := s.actors[t := pc];
    forall u | 0 <= u < |pcs| ensures Seen(c, s.pool, pcs[u]) {
      assert !Window(pcs[u]);
    }
  }

  lemma {:induction false} WaitsRun(c: Config, s: State, steps: seq<(nat, Event)>, end: State)
    requires Inv(c, s) && Waits(c, s) && CalmRun(c, s, steps, end)
    ensures Inv(c, end) && Waits(c, end)
    decreases |steps|
  {
    hide Inv, Waits, Act, Calm;
    if |steps| > 0 {
      var (t, e) := steps[0];
      InvStep(c, s, t, e);
      WaitsStep(c, s, t, e);
      WaitsRun(c, Step(c, s, t, e), steps[1..], end);
    }
  }

  /** In every run in which no drain of wakers ends while another actor stands between
      finding no idle connection and parking, a waiter is left at rest only when nothing is
      idle and all slots are taken. */
  lemma NoLostWakeup(c: Config, s: State, steps: seq<(nat, Event)>, end: State)
    requires Initial(s) && CalmRun(c, s, steps, end)
    requires forall t :: 0 <= t < |end.actors| ==> end.actors[t] == Resting
    ensures end.pool.waiting > 0 ==> |end.pool.idle| == 0 && end.pool.slots == c.max
  {
    InvInitial(c, s);
    assert Waits(c, s);
    hide Inv, CalmRun, Initial;
    WaitsRun(c, s, steps, end);
  }
}
