// The port's tasks (main/bat_port.c): the radio's hook and the network stack fill slots, any
// number of AT tasks ask for listings, and the engine task serves all of them from one work
// queue. Every queue, semaphore and critical-section operation is one step.
module RenderHandoff {

  const RX_SLOTS: int := 6
  const TX_SLOTS: int := 4
  const WORK_CAP: int := RX_SLOTS + TX_SLOTS + 1

  datatype Option<T> = None | Some(value: T)

  datatype Kind = EvRx | EvSoftTx | EvRender

  // slot: the slot's index, or the listing wanted.
  datatype Ev = Ev(kind: Kind, slot: nat)

  // A queue of free slots, and the slot its one filling task holds.
  datatype Pool = Pool(free: seq<nat>, filling: Option<nat>)

  datatype Render = Idle | Pending | Done | Abandoned

  datatype Request = Request(listing: nat, from: nat, mac: Option<nat>)

  // The text of a chunk, known by what it answers and by the cursor it left.
  datatype Answer = Answer(asked: Request, next: nat)

  datatype Engine =
    | Waiting
    | Handling(ev: Ev)
    | Writing(listing: nat)
    | Filled
    | Giving(abandoned: bool)

  // Where an AT task is between asking for a chunk and being done with its text.
  datatype Caller =
    | Out
    | Locked(q: Request)
    | Cleared(q: Request)
    | Prepared(q: Request)
    | Asked(q: Request)
    | SendFailed
    | Awaiting(q: Request)
    | Expired(q: Request)
    | Final(q: Request)
    | Reading(q: Request)
    | Closing

  // The request: its two semaphores, its state, what the engine is asked and what it wrote.
  // fails: gives of a semaphore already given. taken, returned: the lock's takes and gives.
  datatype Hand = Hand(lock: bool, done: bool, render: Render, cursor: nat, mac: Option<nat>, buffer: Answer,
                       taken: nat, returned: nat, fails: nat)

  // holder: the caller inside a request. lost: sends into a full queue.
  datatype State = State(rx: Pool, tx: Pool, work: seq<Ev>, engine: Engine, hand: Hand,
                         callers: map<nat, Caller>, holder: Option<nat>, lost: nat)

  datatype Event =
    | Take(kind: Kind)
    | Post(kind: Kind)
    | Receive
    | GiveSlot
    | Fill(next: nat)
    | Conclude
    | Give
    | TakeLock(c: nat, q: Request)
    | ClearDone(c: nat)
    | Prepare(c: nat)
    | SetPending(c: nat)
    | SendRender(c: nat)
    | Withdraw(c: nat)
    | TakeDone(c: nat)
    | Expire(c: nat)
    | Decide(c: nat)
    | TakeLast(c: nat)
    | Close(c: nat)
    | Unlock(c: nat)

  function At(s: State, c: nat): Caller {
    if c in s.callers then s.callers[c] else Out
  }

  function PoolOf(s: State, k: Kind): Pool {
    if k.EvRx? then s.rx else s.tx
  }

  function WithPool(s: State, k: Kind, p: Pool): State {
    if k.EvRx? then s.(rx := p) else s.(tx := p)
  }

  function SlotsOf(k: Kind): nat {
    if k.EvRx? then RX_SLOTS else TX_SLOTS
  }

  predicate Enabled(s: State, e: Event) {
    match e
    case Take(k) => !k.EvRender? && PoolOf(s, k).filling.None? && PoolOf(s, k).free != []
    case Post(k) => !k.EvRender? && PoolOf(s, k).filling.Some?
    case Receive => s.engine.Waiting? && s.work != []
    case GiveSlot => s.engine.Handling?
    case Fill(_) => s.engine.Writing?
    case Conclude => s.engine.Filled?
    case Give => s.engine.Giving?
    case TakeLock(c, _) => At(s, c).Out? && s.hand.lock
    case ClearDone(c) => At(s, c).Locked?
    case Prepare(c) => At(s, c).Cleared?
    case SetPending(c) => At(s, c).Prepared?
    case SendRender(c) => At(s, c).Asked?
    case Withdraw(c) => At(s, c).SendFailed?
    case TakeDone(c) => At(s, c).Awaiting? && s.hand.done
    case Expire(c) => At(s, c).Awaiting?
    case Decide(c) => At(s, c).Expired?
    case TakeLast(c) => At(s, c).Final? && s.hand.done
    case Close(c) => At(s, c).Reading?
    case Unlock(c) => At(s, c).Closing?
  }

  function Move(s: State, c: nat, to: Caller, hand: Hand): State {
    s.(callers := s.callers[c := to], hand := hand)
  }

  // Giving a semaphore, and sending without waiting: what is full takes no more.
  function GiveLock(h: Hand): Hand {
    if h.lock then h.(fails := h.fails + 1) else h.(lock := true, returned := h.returned + 1)
  }

  function GiveDone(h: Hand): Hand {
    if h.done then h.(fails := h.fails + 1) else h.(done := true)
  }

  function SendWork(s: State, ev: Ev): State {
    if |s.work| < WORK_CAP then s.(work := s.work + [ev]) else s.(lost := s.lost + 1)
  }

  function SendFree(s: State, ev: Ev): State {
    var p := PoolOf(s, ev.kind);
    if |p.free| < SlotsOf(ev.kind) then WithPool(s, ev.kind, p.(free := p.free + [ev.slot]))
    else s.(lost := s.lost + 1)
  }

  function Step(s: State, e: Event): State
    requires Enabled(s, e)
  {
    var h := s.hand;
    match e
    // the hook and the network stack
    case Take(k) => WithPool(s, k, Pool(PoolOf(s, k).free[1..], Some(PoolOf(s, k).free[0])))
    case Post(k) =>
      SendWork(WithPool(s, k, PoolOf(s, k).(filling := None)), Ev(k, PoolOf(s, k).filling.value))
    // the engine task
    case Receive =>
      var ev := s.work[0];
      s.(work := s.work[1..], engine := if ev.kind.EvRender? then Writing(ev.slot) else Handling(ev))
    case GiveSlot => SendFree(s.(engine := Waiting), s.engine.ev)
    case Fill(next) =>
      s.(hand := h.(buffer := Answer(Request(s.engine.listing, h.cursor, h.mac), next), cursor := next),
          engine := Filled)
    case Conclude =>
      s.(hand := h.(render := if h.render.Abandoned? then Idle else Done), engine := Giving(h.render.Abandoned?))
    case Give => s.(hand := if s.engine.abandoned then GiveLock(h) else GiveDone(h), engine := Waiting)
    // the AT tasks
    case TakeLock(c, q) => Move(s, c, Locked(q), h.(lock := false, taken := h.taken + 1)).(holder := Some(c))
    case ClearDone(c) => Move(s, c, Cleared(At(s, c).q), h.(done := false))
    case Prepare(c) => Move(s, c, Prepared(At(s, c).q), h.(cursor := At(s, c).q.from, mac := At(s, c).q.mac))
    case SetPending(c) => Move(s, c, Asked(At(s, c).q), h.(render := Pending))
    case SendRender(c) =>
      SendWork(Move(s, c, if |s.work| < WORK_CAP then Awaiting(At(s, c).q) else SendFailed, h),
               Ev(EvRender, At(s, c).q.listing))
    case Withdraw(c) => Move(s, c, Closing, h.(render := Idle))
    case TakeDone(c) => Move(s, c, Reading(At(s, c).q), h.(done := false))
    case Expire(c) => Move(s, c, Expired(At(s, c).q), h)
    case Decide(c) =>
      if h.render.Pending? then Move(s, c, Out, h.(render := Abandoned)).(holder := None)
      else Move(s, c, Final(At(s, c).q), h)
    case TakeLast(c) => Move(s, c, Reading(At(s, c).q), h.(done := false))
    case Close(c) => Move(s, c, Closing, h.(render := Idle))
    case Unlock(c) => Move(s, c, Out, GiveLock(h)).(holder := None)
  }

  function Upto(n: nat): (r: seq<nat>) {
    seq(n, i => i)
  }

  function Start(buffer: Answer): State {
    State(Pool(Upto(RX_SLOTS), None), Pool(Upto(TX_SLOTS), None), [], Waiting,
          Hand(true, false, Idle, 0, None, buffer, 0, 0, 0), map[], None, 0)
  }

  // ---- slots ---------------------------------------------------------------------------

  // The slots, or listings, of one kind in the work queue.
  function Of(work: seq<Ev>, k: Kind): seq<nat> {
    if work == [] then []
    else (if work[0].kind == k then [work[0].slot] else []) + Of(work[1..], k)
  }

  lemma {:induction false} OfAppend(work: seq<Ev>, ev: Ev, k: Kind)
    ensures Of(work + [ev], k) == Of(work, k) + if ev.kind == k then [ev.slot] else []
  {
    if work == [] {
      assert [ev][1..] == [];
    } else {
      OfAppend(work[1..], ev, k);
      assert (work + [ev])[1..] == work[1..] + [ev];
      assert (work + [ev])[0] == work[0];
      var first := if work[0].kind == k then [work[0].slot] else [];
      var last := if ev.kind == k then [ev.slot] else [];
      assert (first + Of(work[1..], k)) + last == first + (Of(work[1..], k) + last);
    }
  }

  lemma {:induction false} OfSizes(work: seq<Ev>)
    ensures |work| == |Of(work, EvRx)| + |Of(work, EvSoftTx)| + |Of(work, EvRender)|
  {
    if work != [] {
      OfSizes(work[1..]);
    }
  }

  function Opt(o: Option<nat>): multiset<nat> {
    if o.Some? then multiset{o.value} else multiset{}
  }

  function InEngine(engine: Engine, k: Kind): multiset<nat> {
    if engine.Handling? && engine.ev.kind == k then multiset{engine.ev.slot} else multiset{}
  }

  // Where the slots of one kind are: free, being filled, queued, in the engine.
  function Places(p: Pool, queued: seq<nat>, inEngine: multiset<nat>): multiset<nat> {
    multiset(p.free) + Opt(p.filling) + multiset(queued) + inEngine
  }

  // Every slot is in exactly one place.
  ghost predicate Whole(s: State, k: Kind) {
    Places(PoolOf(s, k), Of(s.work, k), InEngine(s.engine, k)) == multiset(Upto(SlotsOf(k)))
  }

  ghost predicate Slots(s: State) {
    Whole(s, EvRx) && Whole(s, EvSoftTx) && (s.engine.Handling? ==> !s.engine.ev.kind.EvRender?)
  }

  function Size(o: Option<nat>): nat {
    if o.Some? then 1 else 0
  }

  lemma WholeSizes(s: State, k: Kind)
    requires Whole(s, k)
    ensures |PoolOf(s, k).free| + Size(PoolOf(s, k).filling) + |Of(s.work, k)| <= SlotsOf(k)
    ensures s.engine.Handling? && s.engine.ev.kind == k ==> |PoolOf(s, k).free| < SlotsOf(k)
  {
    var p := PoolOf(s, k);
    hide Of, PoolOf;
    assert |Places(p, Of(s.work, k), InEngine(s.engine, k))|
        == |p.free| + Size(p.filling) + |Of(s.work, k)| + |InEngine(s.engine, k)|;
    assert |multiset(Upto(SlotsOf(k)))| == SlotsOf(k);
  }

  // ---- one request at a time -----------------------------------------------------------

  predicate Rendering(engine: Engine) {
    engine.Writing? || engine.Filled? || engine.Giving?
  }

  // No render in the queue (rs: those in it) nor in the engine.
  ghost predicate Quiet(rs: seq<nat>, engine: Engine, h: Hand) {
    rs == [] && !Rendering(engine) && !h.done
  }

  ghost predicate Ready(h: Hand, q: Request) {
    h.cursor == q.from && h.mac == q.mac
  }

  // One request is in the queue or in the engine.
  ghost predicate Outstanding(rs: seq<nat>, engine: Engine, h: Hand) {
    !h.done && if engine.Writing? || engine.Filled? then rs == [] else !Rendering(engine) && |rs| == 1
  }

  // And it is q.
  ghost predicate Underway(rs: seq<nat>, engine: Engine, h: Hand, q: Request) {
    Outstanding(rs, engine, h) && h.render.Pending?
    && if engine.Filled? then h.buffer == Answer(q, h.cursor)
       else Ready(h, q) && q.listing == if engine.Writing? then engine.listing else rs[0]
  }

  // q's answer is written; done is given or about to be.
  ghost predicate Answered(rs: seq<nat>, engine: Engine, h: Hand, q: Request) {
    && h.buffer == Answer(q, h.cursor) && h.render.Done? && rs == []
    && if h.done then !Rendering(engine) else engine == Giving(false)
  }

  ghost predicate HolderOk(rs: seq<nat>, engine: Engine, h: Hand, c: Caller) {
    match c
    case Out => false
    case Locked(_) => Quiet(rs, engine, h) && h.render.Idle?
    case Cleared(_) => Quiet(rs, engine, h) && h.render.Idle?
    case Prepared(q) => Quiet(rs, engine, h) && h.render.Idle? && Ready(h, q)
    case Asked(q) => Quiet(rs, engine, h) && h.render.Pending? && Ready(h, q)
    case SendFailed => false
    case Awaiting(q) => Underway(rs, engine, h, q) || Answered(rs, engine, h, q)
    case Expired(q) => Underway(rs, engine, h, q) || Answered(rs, engine, h, q)
    case Final(q) => Answered(rs, engine, h, q)
    case Reading(q) => Quiet(rs, engine, h) && h.render.Done? && h.buffer == Answer(q, h.cursor)
    case Closing => Quiet(rs, engine, h) && h.render.Idle?
  }

  // The engine has the lock of a request whose caller left.
  ghost predicate Orphan(rs: seq<nat>, engine: Engine, h: Hand) {
    if h.render.Abandoned? then Outstanding(rs, engine, h)
    else h.render.Idle? && rs == [] && engine == Giving(true) && !h.done
  }

  // The lock is in one place: free, with one caller, or with the engine.
  ghost predicate OneLock(rs: seq<nat>, engine: Engine, h: Hand, holder: Option<Caller>) {
    match holder
    case Some(c) => !h.lock && HolderOk(rs, engine, h, c)
    case None => if h.lock then Quiet(rs, engine, h) && h.render.Idle? else Orphan(rs, engine, h)
  }

  function HoldingCaller(s: State): Option<Caller> {
    if s.holder.Some? then Some(At(s, s.holder.value)) else None
  }

  ghost predicate Locks(s: State) {
    OneLock(Of(s.work, EvRender), s.engine, s.hand, HoldingCaller(s))
  }

  // One caller at most is inside a request.
  ghost predicate OneInside(s: State) {
    forall c: nat :: At(s, c).Out? <==> s.holder != Some(c)
  }

  // Every take has its one give, but the last while the lock is away; nothing was ever lost.
  ghost predicate Accounts(s: State) {
    s.lost == 0 && s.hand.fails == 0 && s.hand.taken == s.hand.returned + if s.hand.lock then 0 else 1
  }

  ghost predicate Inv(s: State) {
    Slots(s) && Locks(s) && OneInside(s) && Accounts(s)
  }

  lemma LocksRenders(s: State)
    requires Locks(s)
    ensures |Of(s.work, EvRender)| <= 1
    ensures s.engine.Giving? ==> if s.engine.abandoned then !s.hand.lock else !s.hand.done
  {
    hide Of;
  }

  // With the slots whole and at most one render, the work queue has room for whoever sends.
  lemma RoomToSend(s: State, e: Event)
    requires Inv(s) && Enabled(s, e) && (e.Post? || e.SendRender?)
    ensures |s.work| < WORK_CAP
  {
    LocksRenders(s);
    WholeSizes(s, EvRx);
    WholeSizes(s, EvSoftTx);
    OfSizes(s.work);
    assert e.SendRender? ==> !At(s, e.c).Out? && At(s, e.c).Asked?;
    hide Of, Whole;
  }

  lemma StartInv(buffer: Answer)
    ensures Inv(Start(buffer))
  {
  }

  // ---- every step keeps the slots ------------------------------------------------------

  lemma HeadApart(s: seq<nat>)
    requires s != []
    ensures multiset(s) == multiset{s[0]} + multiset(s[1..])
  {
    assert s == [s[0]] + s[1..];
  }

  lemma TakeKeepsSlots(s: State, k: Kind, j: Kind)
    requires Enabled(s, Take(k)) && Whole(s, j) && !j.EvRender?
    ensures Whole(Step(s, Take(k)), j)
  {
    HeadApart(PoolOf(s, k).free);
    hide Of;
  }

  lemma PostKeepsSlots(s: State, k: Kind, j: Kind)
    requires Enabled(s, Post(k)) && Whole(s, j) && !j.EvRender? && |s.work| < WORK_CAP
    ensures Whole(Step(s, Post(k)), j)
  {
    OfAppend(s.work, Ev(k, PoolOf(s, k).filling.value), j);
    hide Of;
  }

  lemma QueuedToEngine(p: Pool, slot: nat, rest: seq<nat>)
    ensures Places(p, [slot] + rest, multiset{}) == Places(p, rest, multiset{slot})
  {
    assert multiset([slot] + rest) == multiset{slot} + multiset(rest);
  }

  lemma ReceiveKeepsSlots(s: State, j: Kind)
    requires Enabled(s, Receive) && Whole(s, j) && !j.EvRender?
    ensures Whole(Step(s, Receive), j)
  {
    var ev := s.work[0];
    var rest := Of(s.work[1..], j);
    assert Of(s.work, j) == if ev.kind == j then [ev.slot] + rest else rest;
    assert InEngine(s.engine, j) == multiset{};
    var s' := Step(s, Receive);
    assert PoolOf(s', j) == PoolOf(s, j) && s'.work == s.work[1..];
    assert InEngine(s'.engine, j) == if ev.kind == j then multiset{ev.slot} else multiset{};
    hide Of, Step, PoolOf, InEngine, SlotsOf, Upto;
    QueuedToEngine(PoolOf(s, j), ev.slot, rest);
  }

  lemma GiveSlotKeepsSlots(s: State, j: Kind)
    requires Enabled(s, GiveSlot) && Slots(s) && !j.EvRender?
    ensures Whole(Step(s, GiveSlot), j) && Step(s, GiveSlot).lost == s.lost
  {
    var ev := s.engine.ev;
    WholeSizes(s, ev.kind);
    GiveSlotMoves(s, j);
    var p := PoolOf(s, j);
    hide Of, Step, PoolOf, SlotsOf, Upto, InEngine;
    EngineToFree(p, ev.slot, Of(s.work, j));
  }

  lemma GiveSlotMoves(s: State, j: Kind)
    requires Enabled(s, GiveSlot) && !j.EvRender? && !s.engine.ev.kind.EvRender?
    requires |PoolOf(s, s.engine.ev.kind).free| < SlotsOf(s.engine.ev.kind)
    ensures
      var s', ev, p := Step(s, GiveSlot), s.engine.ev, PoolOf(s, j);
      s'.lost == s.lost && s'.work == s.work && InEngine(s'.engine, j) == multiset{}
      && PoolOf(s', j) == (if ev.kind == j then p.(free := p.free + [ev.slot]) else p)
      && InEngine(s.engine, j) == if ev.kind == j then multiset{ev.slot} else multiset{}
  {
  }

  lemma EngineToFree(p: Pool, slot: nat, queued: seq<nat>)
    ensures Places(p.(free := p.free + [slot]), queued, multiset{}) == Places(p, queued, multiset{slot})
  {
    assert multiset(p.free + [slot]) == multiset(p.free) + multiset{slot};
  }

  lemma SendRenderKeepsSlots(s: State, c: nat, j: Kind)
    requires Enabled(s, SendRender(c)) && Whole(s, j) && !j.EvRender? && |s.work| < WORK_CAP
    ensures Whole(Step(s, SendRender(c)), j)
  {
    OfAppend(s.work, Ev(EvRender, At(s, c).q.listing), j);
    var s' := Step(s, SendRender(c));
    assert PoolOf(s', j) == PoolOf(s, j) && s'.engine == s.engine && Of(s'.work, j) == Of(s.work, j);
    hide Of, Places, Step, PoolOf, InEngine;
  }

  // The steps that move a slot or an event; all others leave the queues alone.
  predicate Moves(e: Event) {
    e.Take? || e.Post? || e.Receive? || e.GiveSlot? || e.SendRender?
  }

  lemma OthersLeaveQueues(s: State, e: Event)
    requires Enabled(s, e) && !Moves(e)
    ensures Step(s, e).rx == s.rx && Step(s, e).tx == s.tx && Step(s, e).work == s.work && Step(s, e).lost == s.lost
    ensures Step(s, e).engine.Handling? <==> s.engine.Handling?
    ensures s.engine.Handling? ==> Step(s, e).engine == s.engine
  {
  }

  lemma MovesKeepSlots(s: State, e: Event, j: Kind)
    requires Inv(s) && Enabled(s, e) && !j.EvRender? && Moves(e)
    ensures Whole(Step(s, e), j)
  {
    if e.Post? || e.SendRender? {
      RoomToSend(s, e);
    }
    hide Step, Whole;
    match e
    case Take(k) => TakeKeepsSlots(s, k, j);
    case Post(k) => PostKeepsSlots(s, k, j);
    case Receive => ReceiveKeepsSlots(s, j);
    case GiveSlot => GiveSlotKeepsSlots(s, j);
    case SendRender(c) => SendRenderKeepsSlots(s, c, j);
  }

  lemma WholeKept(s: State, e: Event, j: Kind)
    requires Inv(s) && Enabled(s, e) && !j.EvRender?
    ensures Whole(Step(s, e), j)
  {
    if Moves(e) {
      MovesKeepSlots(s, e, j);
    } else {
      OthersLeaveQueues(s, e);
    }
    hide Step, Enabled, Of, Places, Locks, OneInside, Accounts;
  }

  lemma NoneLost(s: State, e: Event)
    requires Inv(s) && Enabled(s, e)
    ensures Step(s, e).lost == 0
  {
    if e.Post? || e.SendRender? {
      RoomToSend(s, e);
    } else if e.GiveSlot? {
      GiveSlotKeepsSlots(s, EvRx);
    } else if !Moves(e) {
      OthersLeaveQueues(s, e);
    }
    hide Slots, Locks, OneInside;
  }

  lemma SlotsKept(s: State, e: Event)
    requires Inv(s) && Enabled(s, e)
    ensures Slots(Step(s, e))
  {
    WholeKept(s, e, EvRx);
    WholeKept(s, e, EvSoftTx);
    if !Moves(e) {
      OthersLeaveQueues(s, e);
      hide Step;
    } else {
      EngineHolds(s, e);
    }
    hide Whole, Locks, OneInside, Accounts, Of, Step;
  }

  lemma EngineHolds(s: State, e: Event)
    requires Enabled(s, e) && Moves(e) && (s.engine.Handling? ==> !s.engine.ev.kind.EvRender?)
    ensures Step(s, e).engine.Handling? ==> !Step(s, e).engine.ev.kind.EvRender?
  {
  }

  // ---- every step keeps the lock in one place --------------------------------------------

  // Only a caller's own step moves it, and only the lock's holder is inside.
  lemma InsideKept(s: State, e: Event)
    requires Inv(s) && Enabled(s, e)
    ensures OneInside(Step(s, e))
  {
    hide Slots, Accounts;
    if e.TakeLock? {
      hide Of;
    }
  }

  lemma RendersKept(s: State, e: Event)
    requires Inv(s) && Enabled(s, e)
    ensures
      Of(Step(s, e).work, EvRender) ==
        if e.SendRender? then Of(s.work, EvRender) + [At(s, e.c).q.listing]
        else if e.Receive? && s.work[0].kind.EvRender? then Of(s.work, EvRender)[1..]
        else Of(s.work, EvRender)
    ensures e.Receive? && s.work[0].kind.EvRender? ==>
      Of(s.work, EvRender) != [] && Of(s.work, EvRender)[0] == s.work[0].slot
  {
    if Moves(e) {
      if e.Post? || e.SendRender? {
        RoomToSend(s, e);
      }
      MovedRenders(s, e);
    } else {
      OthersLeaveQueues(s, e);
    }
    hide Step, Inv, Of;
  }

  lemma MovedRenders(s: State, e: Event)
    requires Enabled(s, e) && Moves(e) && (e.Post? || e.SendRender? ==> |s.work| < WORK_CAP)
    ensures
      Of(Step(s, e).work, EvRender) ==
        if e.SendRender? then Of(s.work, EvRender) + [At(s, e.c).q.listing]
        else if e.Receive? && s.work[0].kind.EvRender? then Of(s.work, EvRender)[1..]
        else Of(s.work, EvRender)
    ensures e.Receive? && s.work[0].kind.EvRender? ==>
      Of(s.work, EvRender) != [] && Of(s.work, EvRender)[0] == s.work[0].slot
  {
    if e.Post? {
      OfAppend(s.work, Ev(e.kind, PoolOf(s, e.kind).filling.value), EvRender);
      hide Of;
    } else if e.SendRender? {
      OfAppend(s.work, Ev(EvRender, At(s, e.c).q.listing), EvRender);
      hide Of;
    } else if e.Receive? {
      hide At, PoolOf;
    } else {
      hide Of;
    }
  }

  predicate IsEngine(e: Event) {
    e.Receive? || e.GiveSlot? || e.Fill? || e.Conclude? || e.Give?
  }

  predicate IsCaller(e: Event) {
    !IsEngine(e) && !e.Take? && !e.Post?
  }

  lemma EngineKeepsLocks(s: State, e: Event)
    requires Locks(s) && Enabled(s, e) && IsEngine(e)
    requires e.Receive? && s.work[0].kind.EvRender? ==>
      Of(s.work, EvRender) != [] && Of(s.work, EvRender)[0] == s.work[0].slot
    requires
      Of(Step(s, e).work, EvRender) ==
        if e.Receive? && s.work[0].kind.EvRender? then Of(s.work, EvRender)[1..] else Of(s.work, EvRender)
    ensures Locks(Step(s, e))
  {
    hide Of;
  }

  lemma CallerKeepsLocks(s: State, e: Event)
    requires Locks(s) && Enabled(s, e) && IsCaller(e) && (e.TakeLock? || s.holder == Some(e.c))
    requires e.TakeLock? ==> s.holder.None?
    requires e.SendRender? ==> |s.work| < WORK_CAP
    requires
      Of(Step(s, e).work, EvRender) ==
        Of(s.work, EvRender) + if e.SendRender? then [At(s, e.c).q.listing] else []
    ensures Locks(Step(s, e))
  {
    hide Of;
  }

  lemma InsideActs(s: State, e: Event)
    requires Inv(s) && Enabled(s, e) && IsCaller(e)
    ensures if e.TakeLock? then s.holder.None? else s.holder == Some(e.c)
  {
    hide Slots, Accounts, Of, Quiet, Orphan;
    assert At(s, e.c).Out? <==> s.holder != Some(e.c);
  }

  lemma PoolsApart(s: State, e: Event)
    requires Enabled(s, e) && (e.Take? || e.Post?)
    ensures Step(s, e).engine == s.engine && Step(s, e).hand == s.hand
    ensures Step(s, e).holder == s.holder && Step(s, e).callers == s.callers
  {
  }

  lemma LocksKept(s: State, e: Event)
    requires Inv(s) && Enabled(s, e)
    ensures Locks(Step(s, e))
  {
    RendersKept(s, e);
    if IsEngine(e) {
      EngineKeepsLocks(s, e);
    } else if IsCaller(e) {
      if e.SendRender? {
        RoomToSend(s, e);
      }
      InsideActs(s, e);
      CallerKeepsLocks(s, e);
    } else {
      PoolsApart(s, e);
    }
    hide Of, Slots, Accounts, HolderOk, Step, Quiet, Orphan, OneInside;
  }

  lemma CallerAccounts(s: State, e: Event)
    requires Locks(s) && Accounts(s) && Enabled(s, e) && IsCaller(e) && (e.TakeLock? || s.holder == Some(e.c))
    requires Step(s, e).lost == 0
    ensures Accounts(Step(s, e))
  {
    hide Of, Quiet, Orphan, Outstanding, Underway, Answered;
  }

  lemma EngineAccounts(s: State, e: Event)
    requires Locks(s) && Accounts(s) && Enabled(s, e) && !IsCaller(e)
    requires Step(s, e).lost == 0
    ensures Accounts(Step(s, e))
  {
    LocksRenders(s);
    hide Of, Locks;
  }

  lemma AccountsKept(s: State, e: Event)
    requires Inv(s) && Enabled(s, e)
    ensures Accounts(Step(s, e))
  {
    NoneLost(s, e);
    if IsCaller(e) {
      InsideActs(s, e);
      CallerAccounts(s, e);
    } else {
      EngineAccounts(s, e);
    }
    hide Slots, Locks, OneInside, Accounts, Step, Enabled;
  }

  lemma InvKept(s: State, e: Event)
    requires Inv(s) && Enabled(s, e)
    ensures Inv(Step(s, e))
  {
    SlotsKept(s, e);
    LocksKept(s, e);
    InsideKept(s, e);
    AccountsKept(s, e);
    hide Step, Slots, Locks, OneInside, Accounts, Enabled;
  }

  // ---- whole runs --------------------------------------------------------------------

  // Any interleaving, with any timeouts.
  predicate Runs(s: State, es: seq<Event>)
    decreases |es|
  {
    es == [] || (Enabled(s, es[0]) && Runs(Step(s, es[0]), es[1..]))
  }

  function After(s: State, es: seq<Event>): State
    requires Runs(s, es)
    decreases |es|
  {
    if es == [] then s else After(Step(s, es[0]), es[1..])
  }

  lemma {:induction false} RunKeepsInv(s: State, es: seq<Event>)
    requires Inv(s) && Runs(s, es)
    ensures Inv(After(s, es))
    decreases |es|
  {
    hide Inv, Step, Enabled;
    if es != [] {
      InvKept(s, es[0]);
      RunKeepsInv(Step(s, es[0]), es[1..]);
    }
  }

  lemma EveryRun(buffer: Answer, es: seq<Event>)
    requires Runs(Start(buffer), es)
    ensures Inv(After(Start(buffer), es))
  {
    StartInv(buffer);
    RunKeepsInv(Start(buffer), es);
  }

  // The engine writes the buffer and the cursor, or reads the request, only while no AT task
  // reads the one or writes the other.
  lemma WritesAlone(buffer: Answer, es: seq<Event>, c: nat)
    requires Runs(Start(buffer), es) && After(Start(buffer), es).engine.Writing?
    ensures
      var at := At(After(Start(buffer), es), c);
      at.Out? || at.Awaiting? || at.Expired?
  {
    EveryRun(buffer, es);
    var s := After(Start(buffer), es);
    assert At(s, c).Out? <==> s.holder != Some(c);
    hide After, Runs, Of, Slots, Accounts;
  }

  // A caller reading has the answer to its own request, not an abandoned one's, whole until it
  // says it is done.
  lemma ReadsItsAnswer(buffer: Answer, es: seq<Event>, c: nat, e: Event)
    requires Runs(Start(buffer), es)
    requires
      var s := After(Start(buffer), es);
      At(s, c).Reading? && Enabled(s, e) && e != Close(c)
    ensures
      var s := After(Start(buffer), es);
      s.hand.buffer == Answer(At(s, c).q, s.hand.cursor)
      && Step(s, e).hand.buffer == s.hand.buffer && Step(s, e).hand.cursor == s.hand.cursor
      && At(Step(s, e), c) == At(s, c)
  {
    EveryRun(buffer, es);
    hide After, Runs;
    TextStays(After(Start(buffer), es), c, e);
  }

  lemma TextStays(s: State, c: nat, e: Event)
    requires Inv(s) && At(s, c).Reading? && Enabled(s, e) && e != Close(c)
    ensures s.hand.buffer == Answer(At(s, c).q, s.hand.cursor)
    ensures Step(s, e).hand.buffer == s.hand.buffer && Step(s, e).hand.cursor == s.hand.cursor
    ensures At(Step(s, e), c) == At(s, c)
  {
    assert s.holder == Some(c) && !s.engine.Writing? by {
      assert At(s, c).Out? <==> s.holder != Some(c);
      hide Of, Slots, Accounts, OneInside;
    }
    if IsCaller(e) {
      InsideActs(s, e);
    } else {
      OthersLeaveText(s, e);
    }
    hide Of, Slots, Accounts, OneInside, Step;
  }

  lemma OthersLeaveText(s: State, e: Event)
    requires Enabled(s, e) && !IsCaller(e) && !e.Fill?
    ensures Step(s, e).hand.buffer == s.hand.buffer && Step(s, e).hand.cursor == s.hand.cursor
    ensures Step(s, e).callers == s.callers
  {
  }

  // The lock is given back once for each time it was taken, and no give and no send ever failed.
  lemma NothingFails(buffer: Answer, es: seq<Event>)
    requires Runs(Start(buffer), es)
    ensures
      var s := After(Start(buffer), es);
      s.lost == 0 && s.hand.fails == 0 && s.hand.taken == s.hand.returned + if s.hand.lock then 0 else 1
    ensures |Of(After(Start(buffer), es).work, EvRender)| <= 1
    ensures forall c: nat :: !At(After(Start(buffer), es), c).SendFailed?
  {
    EveryRun(buffer, es);
    var s := After(Start(buffer), es);
    LocksRenders(s);
    hide After, Runs, Of, Slots;
    forall c: nat
      ensures !At(s, c).SendFailed?
    {
      assert At(s, c).Out? <==> s.holder != Some(c);
    }
  }

  // ---- the engine owes nothing it does not deliver ------------------------------------------

  function Stage(engine: Engine): nat {
    match engine
    case Waiting => 0
    case Handling(_) => 1
    case Writing(_) => 3
    case Filled => 2
    case Giving(_) => 1
  }

  // Engine steps left before it waits with nothing queued.
  function Ahead(s: State): nat {
    4 * |s.work| + Stage(s.engine)
  }

  lemma EngineAdvances(s: State, e: Event)
    requires IsEngine(e) && Enabled(s, e)
    ensures Ahead(Step(s, e)) < Ahead(s)
  {
  }

  // The engine can always go on, and once it has nothing left the lock of every abandoned
  // request is back and every caller still waiting has its answer.
  lemma EngineOwesNothing(buffer: Answer, es: seq<Event>)
    requires Runs(Start(buffer), es)
    ensures
      var s := After(Start(buffer), es);
      Ahead(s) > 0 ==>
        Enabled(s, Receive) || Enabled(s, GiveSlot) || Enabled(s, Fill(0)) || Enabled(s, Conclude) || Enabled(s, Give)
    ensures
      var s := After(Start(buffer), es);
      Ahead(s) == 0 ==> s.hand.lock || s.holder.Some?
    ensures
      var s := After(Start(buffer), es);
      Ahead(s) == 0 ==> forall c: nat :: At(s, c).Awaiting? || At(s, c).Expired? || At(s, c).Final? ==> s.hand.done
  {
    EveryRun(buffer, es);
    var s := After(Start(buffer), es);
    hide After, Runs, Slots, Accounts;
    forall c: nat | Ahead(s) == 0 && (At(s, c).Awaiting? || At(s, c).Expired? || At(s, c).Final?)
      ensures s.hand.done
    {
      assert At(s, c).Out? <==> s.holder != Some(c);
    }
  }

  // The wait without a timeout is for an answer already written: the engine gives it next.
  lemma LastWaitIsShort(buffer: Answer, es: seq<Event>, c: nat)
    requires Runs(Start(buffer), es) && At(After(Start(buffer), es), c).Final?
    ensures
      var s := After(Start(buffer), es);
      Enabled(s, TakeLast(c)) || (s.engine == Giving(false) && Enabled(Step(s, Give), TakeLast(c)))
  {
    EveryRun(buffer, es);
    var s := After(Start(buffer), es);
    assert At(s, c).Out? <==> s.holder != Some(c);
    hide After, Runs, Of, Slots, Accounts, OneInside;
  }

  // ---- the port's own variables ----------------------------------------------------------

  // Each method is one region under s_render_mux, one give, or the engine's write; s is the
  // whole system as the step finds it.
  class Port {
    var lock: bool
    var done: bool
    var render: Render
    var cursor: nat
    var mac: Option<nat>
    var buffer: Answer
    ghost var taken: nat
    ghost var returned: nat
    ghost var fails: nat

    ghost function Now(): Hand
      reads this
    {
      Hand(lock, done, render, cursor, mac, buffer, taken, returned, fails)
    }

    constructor (buffer: Answer)
      ensures Now() == Start(buffer).hand
    {
      lock, done, render, cursor, mac, this.buffer := true, false, Idle, 0, None, buffer;
      taken, returned, fails := 0, 0, 0;
    }

    // bat_port_render_ up to its critical section: the text, and where the next chunk starts.
    method WriteText(ghost s: State, listing: nat, next: nat)
      requires s.hand == Now() && s.engine == Writing(listing)
      modifies this
      ensures Now() == Step(s, Fill(next)).hand
    {
      buffer := Answer(Request(listing, cursor, mac), next);
      cursor := next;
    }

    // Its critical section.
    method ConcludeRender(ghost s: State) returns (abandoned: bool)
      requires s.hand == Now() && Enabled(s, Conclude)
      modifies this
      ensures Now() == Step(s, Conclude).hand && Step(s, Conclude).engine == Giving(abandoned)
    {
      abandoned := render == Abandoned;
      render := if abandoned then Idle else Done;
    }

    // Its give: an abandoned request's lock, else done. Neither was given already.
    method GiveBack(ghost s: State, abandoned: bool)
      requires s.hand == Now() && s.engine == Giving(abandoned) && Inv(s)
      modifies this
      ensures Now() == Step(s, Give).hand && fails == old(fails)
    {
      LocksRenders(s);
      if abandoned {
        lock, returned := true, returned + 1;
      } else {
        done := true;
      }
    }

    // warthog_bat_port_render when its wait has run out.
    method DecideExpired(ghost s: State, c: nat) returns (abandoned: bool)
      requires s.hand == Now() && Enabled(s, Decide(c))
      modifies this
      ensures Now() == Step(s, Decide(c)).hand && (At(Step(s, Decide(c)), c).Out? <==> abandoned)
    {
      abandoned := render == Pending;
      if abandoned {
        render := Abandoned;
      }
    }

    // warthog_bat_port_render_done: idle, then the lock.
    method EndRequest(ghost s: State, c: nat)
      requires s.hand == Now() && Enabled(s, Close(c)) && Inv(s)
      modifies this
      ensures Now() == GiveLock(Step(s, Close(c)).hand) && fails == old(fails)
    {
      assert !lock by {
        assert At(s, c).Out? <==> s.holder != Some(c);
        hide Slots, Accounts, Of;
      }
      hide Inv;
      render := Idle;
      lock, returned := true, returned + 1;
    }
  }
}
