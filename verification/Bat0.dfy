// bat0 addressing (main/bat_mode.c): DHCP from the first route, then static candidates probed
// one by one; a lost router, or a held address, asks DHCP again beside it.
module Bat0 {
  import opened Words
  import opened Backoff

  const DHCP_WAIT_MS: int := 45000
  const BIND_GRACE_MS: int := 10000
  const ATTEMPT_MS: int := DHCP_WAIT_MS + BIND_GRACE_MS
  const STATIC_TRIES: int := 8
  const PROBE_TICKS: int := 2
  const ROUTER_LOSS_MS: int := 60000
  const RETRY_FIRST_MS: int := 30000
  const U32_MAX: int := 0xFFFF_FFFF

  datatype Phase = Idle | Dhcp | Leased | Probe | Held | Retry

  datatype Act = Nothing | StartDhcp | GotLease | ProbeIt | Static | StartRetry | Hold | RetryFail | RouterLost

  datatype Router = NoRouter | RouterOk | RouterGone | RouterUnknown

  datatype Input = Input(elapsed: u32, routes: nat, dhcp: bool, dhcpRunning: bool, leased: bool, haveIp: bool,
                         taken: bool, gws: u8, binding: bool, router: Router)

  datatype State = State(phase: Phase, attempt: u8, level: u8, lostLevel: u8, heldLease: bool, prevRoutes: bool,
                         prevGws: u8, ticks: u8, ms: u32, lostMs: u32, retries: u32, restarts: u32)

  const START: State := State(Idle, 0, 0, 0, false, false, 0, 0, 0, 0, 0, 0)

  predicate AttemptOn(ms: u32, i: Input) {
    i.dhcpRunning && (ms < DHCP_WAIT_MS || (i.binding && ms < ATTEMPT_MS))
  }

  function ToLeased(s: State): (State, Act) {
    (s.(phase := Leased, lostMs := 0, level := 0, heldLease := false), GotLease)
  }

  // The state as the switch finds it: a gateway more, or a first route, starts the waits over.
  function Noted(s: State, i: Input): State {
    var s1 := s.(prevGws := i.gws, prevRoutes := i.routes != 0);
    if i.gws > s.prevGws || (i.routes != 0 && !s.prevRoutes) then s1.(level := 0, lostLevel := 0) else s1
  }

  function Saturated(ms: u32, e: u32): u32 {
    if ms > U32_MAX - e then U32_MAX else ms + e
  }

  function DhcpStep(s: State, i: Input): (State, Act) {
    var ms := Wrap32(s.ms + i.elapsed);
    if i.leased then ToLeased(s)
    else if AttemptOn(ms, i) then (s.(ms := ms), Nothing)
    else (s.(ms := ms, attempt := 0, ticks := 0, phase := Probe), ProbeIt)
  }

  function RetryStep(s: State, i: Input): (State, Act) {
    var ms := Wrap32(s.ms + i.elapsed);
    if i.leased then ToLeased(s)
    else if AttemptOn(ms, i) then (s.(ms := ms), if i.haveIp then Nothing else Hold)
    else (s.(ms := 0, phase := Held), RetryFail)
  }

  function LeasedStep(s: State, i: Input): (State, Act) {
    if !i.leased then (s.(phase := Dhcp, ms := 0), Nothing)
    else if !i.dhcp || i.router.NoRouter? || i.router.RouterOk? then (s.(lostMs := 0, lostLevel := 0), Nothing)
    else
      var s1 := s.(lostMs := Wrap32(s.lostMs + i.elapsed));
      if s1.lostMs < Doubled(ROUTER_LOSS_MS, s.lostLevel) then (s1, Nothing)
      else
        (s1.(lostLevel := if s.lostLevel < 255 then s.lostLevel + 1 else s.lostLevel,
             restarts := Wrap32(s.restarts + 1), heldLease := true, ms := 0, phase := Retry), RouterLost)
  }

  function Take(s: State): (State, Act) {
    (s.(phase := Held, ms := 0, heldLease := false), Static)
  }

  function ProbeStep(s: State, i: Input): (State, Act)
    requires s.attempt < STATIC_TRIES && s.ticks < PROBE_TICKS
  {
    if i.taken then
      var s1 := s.(ticks := 0, attempt := s.attempt + 1);
      if s1.attempt >= STATIC_TRIES then Take(s1) else (s1, ProbeIt)
    else
      var s1 := s.(ticks := s.ticks + 1);
      if s1.ticks < PROBE_TICKS then (s1, ProbeIt) else Take(s1)
  }

  function HeldStep(s: State, i: Input): (State, Act) {
    if !i.dhcp then (s, Nothing)
    else
      var s1 := s.(ms := Saturated(s.ms, i.elapsed));
      if i.routes == 0 || s1.ms < Doubled(RETRY_FIRST_MS, s.level) then (s1, Nothing)
      else
        (s1.(level := if s.level < 255 then s.level + 1 else s.level, retries := Wrap32(s.retries + 1), ms := 0,
             phase := Retry), StartRetry)
  }

  // Probing, the state is always at a candidate still to be judged.
  predicate Sound(s: State) {
    s.phase.Probe? ==> s.attempt < STATIC_TRIES && s.ticks < PROBE_TICKS
  }

  function Step(s0: State, i: Input): (State, Act)
    requires Sound(s0)
  {
    var s := Noted(s0, i);
    match s.phase
    case Idle =>
      if i.routes == 0 then (s, Nothing)
      else if i.dhcp then (s.(attempt := 0, ticks := 0, ms := 0, phase := Dhcp), StartDhcp)
      else (s.(attempt := 0, ticks := 0, ms := 0, phase := Probe), ProbeIt)
    case Dhcp => DhcpStep(s, i)
    case Leased => LeasedStep(s, i)
    case Probe => ProbeStep(s, i)
    case Held => HeldStep(s, i)
    case Retry => RetryStep(s, i)
  }

  class Machine {
    var phase: Phase
    var attempt: u8
    var level: u8
    var lostLevel: u8
    var heldLease: bool
    var prevRoutes: bool
    var prevGws: u8
    var ticks: u8
    var ms: u32
    var lostMs: u32
    var retries: u32
    var restarts: u32

    function Now(): State
      reads this
    {
      State(phase, attempt, level, lostLevel, heldLease, prevRoutes, prevGws, ticks, ms, lostMs, retries, restarts)
    }

    constructor ()
      ensures Now() == START
    {
      phase, attempt, level, lostLevel, heldLease, prevRoutes := Idle, 0, 0, 0, false, false;
      prevGws, ticks, ms, lostMs, retries, restarts := 0, 0, 0, 0, 0, 0;
    }

    // bat_mode_bat0_step
    method Advance(i: Input) returns (act: Act)
      requires Sound(Now())
      modifies this
      ensures (Now(), act) == Step(old(Now()), i) && Sound(Now())
    {
      hide LeasedStep, HeldStep, DhcpStep, RetryStep, ProbeStep;
      var rise := i.gws > prevGws || (i.routes != 0 && !prevRoutes);
      prevGws, prevRoutes := i.gws, i.routes != 0;
      if rise {
        level, lostLevel := 0, 0;
      }
      match phase {
        case Idle =>
          if i.routes == 0 {
            return Nothing;
          }
          attempt, ticks, ms := 0, 0, 0;
          phase := if i.dhcp then Dhcp else Probe;
          return if i.dhcp then StartDhcp else ProbeIt;
        case Dhcp =>
          act := Ask(i);
        case Leased =>
          act := WatchLease(i);
        case Probe =>
          act := Judge(i);
        case Held =>
          act := Wait(i);
        case Retry =>
          act := AskBeside(i);
      }
    }

    method Ask(i: Input) returns (act: Act)
      requires phase.Dhcp?
      modifies this
      ensures (Now(), act) == DhcpStep(old(Now()), i) && Sound(Now())
    {
      hide Wrap32, AttemptOn;
      if i.leased {
        phase, lostMs, level, heldLease := Leased, 0, 0, false;
        return GotLease;
      }
      ms := Wrap32(ms + i.elapsed);
      if AttemptOn(ms, i) {
        return Nothing;
      }
      attempt, ticks, phase := 0, 0, Probe;
      return ProbeIt;
    }

    method AskBeside(i: Input) returns (act: Act)
      requires phase.Retry?
      modifies this
      ensures (Now(), act) == RetryStep(old(Now()), i) && Sound(Now())
    {
      hide Wrap32, AttemptOn;
      if i.leased {
        phase, lostMs, level, heldLease := Leased, 0, 0, false;
        return GotLease;
      }
      ms := Wrap32(ms + i.elapsed);
      if AttemptOn(ms, i) {
        return if i.haveIp then Nothing else Hold;
      }
      ms, phase := 0, Held;
      return RetryFail;
    }

    method WatchLease(i: Input) returns (act: Act)
      requires phase.Leased?
      modifies this
      ensures (Now(), act) == LeasedStep(old(Now()), i) && Sound(Now())
    {
      hide Doubled, Wrap32;
      if !i.leased {
        phase, ms := Dhcp, 0;
        return Nothing;
      }
      if !i.dhcp || i.router == NoRouter || i.router == RouterOk {
        lostMs, lostLevel := 0, 0;
        return Nothing;
      }
      lostMs := Wrap32(lostMs + i.elapsed);
      var wait := DoubledWait(ROUTER_LOSS_MS, lostLevel);
      if lostMs < wait {
        return Nothing;
      }
      if lostLevel < 255 {
        lostLevel := lostLevel + 1;
      }
      restarts, heldLease, ms, phase := Wrap32(restarts + 1), true, 0, Retry;
      return RouterLost;
    }

    method Judge(i: Input) returns (act: Act)
      requires phase.Probe? && Sound(Now())
      modifies this
      ensures (Now(), act) == ProbeStep(old(Now()), i) && Sound(Now())
    {
      if i.taken {
        ticks, attempt := 0, attempt + 1;
        if attempt < STATIC_TRIES {
          return ProbeIt;
        }
      } else {
        ticks := ticks + 1;
        if ticks < PROBE_TICKS {
          return ProbeIt;
        }
      }
      phase, ms, heldLease := Held, 0, false;
      return Static;
    }

    method Wait(i: Input) returns (act: Act)
      requires phase.Held?
      modifies this
      ensures (Now(), act) == HeldStep(old(Now()), i) && Sound(Now())
    {
      hide Doubled, Wrap32;
      if !i.dhcp {
        return Nothing;
      }
      ms := if ms > U32_MAX - i.elapsed then U32_MAX else ms + i.elapsed;
      var wait := DoubledWait(RETRY_FIRST_MS, level);
      if i.routes == 0 || ms < wait {
        return Nothing;
      }
      if level < 255 {
        level := level + 1;
      }
      retries, ms, phase := Wrap32(retries + 1), 0, Retry;
      return StartRetry;
    }
  }

  // ---- every run ---------------------------------------------------------------------------

  datatype Trace = Trace(states: seq<State>, ins: seq<Input>, acts: seq<Act>)

  ghost predicate StepAt(t: Trace, k: nat)
    requires k < |t.ins| && |t.acts| == |t.ins| && |t.states| == |t.ins| + 1
  {
    Sound(t.states[k]) && (t.states[k + 1], t.acts[k]) == Step(t.states[k], t.ins[k])
  }

  ghost predicate Runs(t: Trace) {
    && |t.acts| == |t.ins| && |t.states| == |t.ins| + 1 && t.states[0] == START
    && forall k :: 0 <= k < |t.ins| ==> StepAt(t, k)
  }

  // So a run can always go on.
  lemma StaysSound(s: State, i: Input)
    requires Sound(s)
    ensures Sound(Step(s, i).0)
            && Step(s, i).0.attempt <= (if s.attempt > STATIC_TRIES then s.attempt else STATIC_TRIES)
  {
    hide Doubled, Wrap32;
  }

  // ---- probing ------------------------------------------------------------------------------

  // Steps a probing machine has left at most.
  function ProbesLeft(s: State): int {
    PROBE_TICKS * (STATIC_TRIES - s.attempt) - s.ticks
  }

  lemma ProbeAdvances(s: State, i: Input)
    requires Sound(s) && s.phase.Probe?
    ensures
      var (s', act) := Step(s, i);
      if act.Static? then s'.phase.Held? && s'.attempt <= STATIC_TRIES
      else act.ProbeIt? && s'.phase.Probe? && 0 < ProbesLeft(s') < ProbesLeft(s)
  {
  }

  // From any step that is probing, the static address is taken within 16 steps, with nothing
  // but probes before it.
  lemma {:induction false} ProbingEnds(t: Trace, i: nat)
    requires Runs(t) && i < |t.states| && t.states[i].phase.Probe?
    requires i + ProbesLeft(t.states[i]) <= |t.ins|
    ensures ProbesLeft(t.states[i]) <= 16
    ensures exists j :: i <= j < i + ProbesLeft(t.states[i]) && j < |t.acts| && t.acts[j].Static?
                        && forall k :: i <= k < j ==> t.acts[k].ProbeIt?
    decreases |t.states| - i
  {
    assert i < |t.ins| ==> StepAt(t, i);
    assert Sound(t.states[i]) by {
      SoundAt(t, i);
    }
    ProbeAdvances(t.states[i], t.ins[i]);
    if t.acts[i].ProbeIt? {
      ProbingEnds(t, i + 1);
      var j :| i + 1 <= j < i + 1 + ProbesLeft(t.states[i + 1]) && j < |t.acts| && t.acts[j].Static?
               && forall k :: i + 1 <= k < j ==> t.acts[k].ProbeIt?;
      assert forall k :: i <= k < j ==> t.acts[k].ProbeIt?;
    } else {
      assert t.acts[i].Static?;
    }
  }

  lemma SoundAt(t: Trace, i: nat)
    requires Runs(t) && i < |t.states|
    ensures Sound(t.states[i])
  {
    if i > 0 {
      assert StepAt(t, i - 1);
      StaysSound(t.states[i - 1], t.ins[i - 1]);
    }
  }

  // Probing began at i; at j every candidate before the present one was found taken since, and the
  // present one was not when it was asked about last, if it was.
  ghost predicate Probing(t: Trace, i: nat, j: nat) {
    && i <= j < |t.states| && |t.states| == |t.ins| + 1
    && (forall k :: i <= k <= j ==> t.states[k].phase.Probe?)
    && (forall b: nat :: b < t.states[j].attempt ==> TakenIn(t, i, j, b))
    && (t.states[j].ticks > 0 ==> i < j && FoundFree(t, j - 1, t.states[j].attempt))
  }

  // Candidate b was asked about in step k, and somebody had it.
  ghost predicate FoundTaken(t: Trace, k: nat, b: nat)
    requires k < |t.ins| < |t.states|
  {
    t.states[k].phase.Probe? && t.states[k].attempt == b && t.ins[k].taken
  }

  ghost predicate TakenIn(t: Trace, i: nat, j: nat, b: nat)
    requires j <= |t.ins| < |t.states|
  {
    exists k :: i <= k < j && FoundTaken(t, k, b)
  }

  ghost predicate TakenBy(t: Trace, i: nat, j: nat, b: nat)
    requires j < |t.ins| < |t.states|
  {
    TakenIn(t, i, j + 1, b)
  }

  ghost predicate FoundFree(t: Trace, k: nat, b: nat)
    requires k < |t.ins| < |t.states|
  {
    t.states[k].phase.Probe? && t.states[k].attempt == b && !t.ins[k].taken
  }

  lemma ProbeBegins(s: State, i: Input)
    requires Sound(s) && !s.phase.Probe? && Step(s, i).0.phase.Probe?
    ensures Step(s, i).0.attempt == 0 && Step(s, i).0.ticks == 0
  {
    hide Doubled, Wrap32;
  }

  lemma ProbeGoesOn(s: State, i: Input)
    requires Sound(s) && s.phase.Probe?
    ensures
      var s' := Step(s, i).0;
      if i.taken then s'.attempt == s.attempt + 1 && s'.ticks == 0
      else s'.attempt == s.attempt && s'.ticks == s.ticks + 1
    ensures s.ticks < 2 && (Step(s, i).1.Static? <==> if i.taken then s.attempt == 7 else s.ticks == 1)
  {
  }

  lemma {:induction false} ProbingSince(t: Trace, j: nat) returns (i: nat)
    requires Runs(t) && j < |t.states| && t.states[j].phase.Probe?
    ensures Probing(t, i, j)
    decreases j
  {
    assert j > 0;
    assert StepAt(t, j - 1);
    var s := t.states[j - 1];
    if s.phase.Probe? {
      i := ProbingSince(t, j - 1);
      ProbeGoesOn(s, t.ins[j - 1]);
      assert t.ins[j - 1].taken ==> FoundTaken(t, j - 1, s.attempt);
      assert !t.ins[j - 1].taken ==> FoundFree(t, j - 1, s.attempt);
      hide FoundTaken, FoundFree, Step;
      forall b: nat | b < t.states[j].attempt
        ensures TakenIn(t, i, j, b)
      {
        assert b < s.attempt ==> TakenIn(t, i, j - 1, b);
      }
    } else {
      ProbeBegins(s, t.ins[j - 1]);
      i := j;
    }
  }

  // The static address taken is that of a candidate asked about twice in a row and free both
  // times, all before it having been found taken; or that of the ninth, if all eight were.
  lemma StaticIsFree(t: Trace, j: nat) returns (i: nat)
    requires Runs(t) && j < |t.acts| && t.acts[j].Static?
    ensures i <= j && forall k :: i <= k <= j ==> t.states[k].phase.Probe?
    ensures
      var a := t.states[j + 1].attempt;
      && a <= 8 && (forall b: nat :: b < a ==> TakenBy(t, i, j, b))
      && (a < 8 ==> i < j && FoundFree(t, j - 1, a) && FoundFree(t, j, a))
  {
    assert StepAt(t, j);
    StaticHolds(t.states[j], t.ins[j]);
    i := ProbingSince(t, j);
    ProbeGoesOn(t.states[j], t.ins[j]);
    var s := t.states[j];
    assert t.ins[j].taken ==> FoundTaken(t, j, s.attempt);
    assert !t.ins[j].taken ==> FoundFree(t, j, s.attempt);
    hide FoundTaken, FoundFree, Step;
    forall b: nat | b < t.states[j + 1].attempt
      ensures TakenBy(t, i, j, b)
    {
      assert b < s.attempt ==> TakenIn(t, i, j, b);
    }
  }

  // ---- a held address --------------------------------------------------------------------------

  predicate Holding(p: Phase) {
    p.Held? || p.Retry?
  }

  lemma HoldingStays(s: State, i: Input)
    requires Sound(s) && Holding(s.phase)
    ensures
      var (s', act) := Step(s, i);
      !act.ProbeIt? && !act.Static? && !act.StartDhcp? &&
       (if act.GotLease? then s'.phase.Leased? else Holding(s'.phase) && s'.attempt == s.attempt)
  {
    hide Doubled, Wrap32;
  }

  lemma {:induction false} HeldUntilLeased(t: Trace, i: nat, j: nat)
    requires Runs(t) && i <= j < |t.states| && Holding(t.states[i].phase)
    requires forall k :: i <= k < j ==> !t.acts[k].GotLease?
    ensures Holding(t.states[j].phase) && t.states[j].attempt == t.states[i].attempt
    decreases j
  {
    if i < j {
      HeldUntilLeased(t, i, j - 1);
      assert StepAt(t, j - 1);
      HoldingStays(t.states[j - 1], t.ins[j - 1]);
    }
  }

  // A static address once taken is given up only for a lease: no probe, and no other static
  // address, comes before one.
  lemma HeldOrLeased(t: Trace, i: nat, j: nat)
    requires Runs(t) && i < j < |t.acts| && t.acts[i].Static? && (t.acts[j].ProbeIt? || t.acts[j].Static?)
    ensures exists k :: i < k < j && t.acts[k].GotLease?
  {
    assert StepAt(t, i) && StepAt(t, j);
    StaticHolds(t.states[i], t.ins[i]);
    if forall k :: i < k < j ==> !t.acts[k].GotLease? {
      HeldUntilLeased(t, i + 1, j);
      HoldingStays(t.states[j], t.ins[j]);
      assert false;
    }
  }

  lemma StaticHolds(s: State, i: Input)
    requires Sound(s) && Step(s, i).1.Static?
    ensures s.phase.Probe? && Step(s, i).0.phase.Held?
  {
    hide Doubled, Wrap32;
  }

  // ---- whose address is held --------------------------------------------------------------------

  datatype Source = NoSource | FromProbe | FromLease

  // Where the address last taken came from.
  function SourceAfter(acts: seq<Act>): Source {
    if acts == [] then NoSource
    else
      match acts[|acts| - 1]
      case Static => FromProbe
      case GotLease => FromLease
      case _ => SourceAfter(acts[..|acts| - 1])
  }

  // In every run the machine knows whether the address it holds is a lease's, whose router was
  // lost, or a static one.
  lemma {:induction false} SourceIs(t: Trace, k: nat)
    requires Runs(t) && k < |t.states|
    ensures t.states[k].phase.Leased? ==> SourceAfter(t.acts[..k]) == FromLease && !t.states[k].heldLease
    ensures
      Holding(t.states[k].phase) ==>
        SourceAfter(t.acts[..k]) == if t.states[k].heldLease then FromLease else FromProbe
  {
    if k > 0 {
      assert StepAt(t, k - 1);
      assert t.acts[..k][..k - 1] == t.acts[..k - 1] && t.acts[..k][k - 1] == t.acts[k - 1];
      SourceStep(t.states[k - 1], t.ins[k - 1], SourceAfter(t.acts[..k - 1]));
      hide Step, Runs, StepAt;
      SourceIs(t, k - 1);
    }
  }

  lemma SourceStep(s: State, i: Input, from: Source)
    requires Sound(s)
    ensures
      var (s', act) := Step(s, i);
      var from' := if act.Static? then FromProbe else if act.GotLease? then FromLease else from;
      (s.phase.Leased? ==> from == FromLease && !s.heldLease)
      && (Holding(s.phase) ==> from == if s.heldLease then FromLease else FromProbe) ==>
        (s'.phase.Leased? ==> from' == FromLease && !s'.heldLease)
        && (Holding(s'.phase) ==> from' == if s'.heldLease then FromLease else FromProbe)
  {
    assert Noted(s, i).heldLease == s.heldLease;
    NotedPhase(s, i);
    hide Doubled, Wrap32, Noted;
  }

  // It is set up again exactly when the interface has none in an attempt that goes on beside it,
  // and a lease is taken exactly when there is one to take.
  lemma HoldsExactly(t: Trace, k: nat)
    requires Runs(t) && k < |t.acts|
    ensures
      t.acts[k].Hold? <==>
      t.states[k].phase.Retry? && !t.ins[k].leased && t.states[k + 1].phase.Retry? && !t.ins[k].haveIp
    ensures t.acts[k].GotLease? <==> t.ins[k].leased && Asking(t.states[k].phase)
    ensures
      t.states[k].phase.Leased? ==>
        t.states[k + 1].phase ==
          if !t.ins[k].leased then Dhcp else if t.acts[k].RouterLost? then Retry else Leased
  {
    assert StepAt(t, k);
    hide Doubled, Wrap32;
  }

  // A leased address is asked for anew only if its router was not found good for 60 s at least,
  // twice as long for each time before, up to 600 s; and it is if that time is over.
  lemma RouterLostExactly(t: Trace, k: nat)
    requires Runs(t) && k < |t.acts| && t.states[k].phase.Leased? && t.ins[k].leased
    ensures
      var level := if Rises(t, k) then 0 else t.states[k].lostLevel;
      t.acts[k].RouterLost? <==>
      && t.ins[k].dhcp && (t.ins[k].router.RouterGone? || t.ins[k].router.RouterUnknown?)
      && (t.states[k].lostMs + t.ins[k].elapsed) % TWO32 >= Doubled(60000, level)
    ensures
      !t.acts[k].RouterLost? ==>
        t.states[k + 1].lostMs ==
          if t.ins[k].dhcp && (t.ins[k].router.RouterGone? || t.ins[k].router.RouterUnknown?)
          then (t.states[k].lostMs + t.ins[k].elapsed) % TWO32 else 0
  {
    NotedAt(t, k);
    assert StepAt(t, k);
    hide Doubled;
  }

  // ---- what a run remembers ------------------------------------------------------------------

  // A gateway more than at the last step, or a route after none.
  predicate Rises(t: Trace, k: nat)
    requires k < |t.ins|
  {
    || t.ins[k].gws > (if k == 0 then 0 else t.ins[k - 1].gws)
    || (t.ins[k].routes > 0 && (k == 0 || t.ins[k - 1].routes == 0))
  }

  lemma NotedAt(t: Trace, k: nat)
    requires Runs(t) && k < |t.ins|
    ensures
      Noted(t.states[k], t.ins[k]) ==
        t.states[k].(prevGws := t.ins[k].gws, prevRoutes := t.ins[k].routes > 0,
                     level := if Rises(t, k) then 0 else t.states[k].level,
                     lostLevel := if Rises(t, k) then 0 else t.states[k].lostLevel)
  {
    if k > 0 {
      assert StepAt(t, k - 1);
      PrevIs(t.states[k - 1], t.ins[k - 1]);
    }
  }

  lemma PrevIs(s: State, i: Input)
    requires Sound(s)
    ensures Step(s, i).0.prevGws == i.gws && (Step(s, i).0.prevRoutes <==> i.routes > 0)
  {
    hide Doubled, Wrap32;
  }

  // The waits start over when a gateway more or a first route comes; a lease ends those beside an
  // address, a router found good those of lost routers; each use doubles the next.
  lemma LevelsAre(t: Trace, k: nat)
    requires Runs(t) && k < |t.acts|
    ensures
      var level := if Rises(t, k) then 0 else t.states[k].level;
      t.states[k + 1].level ==
        if t.acts[k].GotLease? then 0 else if t.acts[k].StartRetry? then Least(level + 1, 255) else level
    ensures
      var level := if Rises(t, k) then 0 else t.states[k].lostLevel;
      t.states[k + 1].lostLevel ==
        if t.acts[k].RouterLost? then Least(level + 1, 255)
        else if t.states[k].phase.Leased? && t.ins[k].leased
          && (!t.ins[k].dhcp || t.ins[k].router.NoRouter? || t.ins[k].router.RouterOk?) then 0 else level
  {
    assert StepAt(t, k);
    NotedAt(t, k);
    LevelStep(t.states[k], t.ins[k]);
  }

  lemma LevelStep(s: State, i: Input)
    requires Sound(s)
    ensures
      var level, (s', act) := Noted(s, i).level, Step(s, i);
      s'.level == if act.GotLease? then 0 else if act.StartRetry? then Least(level + 1, 255) else level
    ensures
      var level, (s', act) := Noted(s, i).lostLevel, Step(s, i);
      s'.lostLevel ==
        if act.RouterLost? then Least(level + 1, 255)
        else if s.phase.Leased? && i.leased && (!i.dhcp || i.router.NoRouter? || i.router.RouterOk?) then 0 else level
  {
    hide Doubled, Wrap32, Noted;
    NotedPhase(s, i);
  }

  lemma NotedPhase(s: State, i: Input)
    ensures Noted(s, i).phase == s.phase && Noted(s, i).attempt == s.attempt && Noted(s, i).ticks == s.ticks
  {
  }

  function CountOf(acts: seq<Act>, a: Act): nat {
    if acts == [] then 0 else CountOf(acts[..|acts| - 1], a) + if acts[|acts| - 1] == a then 1 else 0
  }

  // The counters count the attempts beside an address and the lost routers of the whole run.
  lemma {:induction false} CountersAre(t: Trace, k: nat)
    requires Runs(t) && k < |t.states|
    ensures t.states[k].retries == Wrap32(CountOf(t.acts[..k], StartRetry))
    ensures t.states[k].restarts == Wrap32(CountOf(t.acts[..k], RouterLost))
  {
    if k > 0 {
      CountersAre(t, k - 1);
      assert StepAt(t, k - 1);
      assert t.acts[..k][..k - 1] == t.acts[..k - 1];
      CounterStep(t.states[k - 1], t.ins[k - 1]);
      WrapNext(CountOf(t.acts[..k - 1], StartRetry));
      WrapNext(CountOf(t.acts[..k - 1], RouterLost));
      hide Step, Wrap32;
    }
  }

  lemma CounterStep(s: State, i: Input)
    requires Sound(s)
    ensures
      var (s', act) := Step(s, i);
      && s'.retries == (if act.StartRetry? then Wrap32(s.retries + 1) else s.retries)
      && s'.restarts == (if act.RouterLost? then Wrap32(s.restarts + 1) else s.restarts)
  {
    assert Noted(s, i).retries == s.retries && Noted(s, i).restarts == s.restarts;
    NotedPhase(s, i);
    hide Doubled, Wrap32, Noted;
  }

  // The start waits for a route, then asks DHCP, or probes if it is off.
  lemma StartsExactly(t: Trace, k: nat)
    requires Runs(t) && k < |t.acts| && t.states[k].phase.Idle?
    ensures
      (t.acts[k], t.states[k + 1].phase) ==
        if t.ins[k].routes == 0 then (Nothing, Idle) else if t.ins[k].dhcp then (StartDhcp, Dhcp) else (ProbeIt, Probe)
  {
    assert StepAt(t, k);
    hide Doubled, Wrap32;
  }

  // ---- one start --------------------------------------------------------------------------------

  lemma IdleOnce(s: State, i: Input)
    requires Sound(s)
    ensures Step(s, i).1.StartDhcp? ==> s.phase.Idle? && !Step(s, i).0.phase.Idle?
    ensures !s.phase.Idle? ==> !Step(s, i).0.phase.Idle?
  {
    hide Doubled, Wrap32;
  }

  lemma {:induction false} NeverIdleAgain(t: Trace, i: nat, j: nat)
    requires Runs(t) && i <= j < |t.states| && !t.states[i].phase.Idle?
    ensures !t.states[j].phase.Idle?
    decreases j
  {
    if i < j {
      NeverIdleAgain(t, i, j - 1);
      assert StepAt(t, j - 1);
      IdleOnce(t.states[j - 1], t.ins[j - 1]);
    }
  }

  lemma StartsOnce(t: Trace, i: nat, j: nat)
    requires Runs(t) && i < j < |t.acts|
    ensures !(t.acts[i].StartDhcp? && t.acts[j].StartDhcp?)
  {
    assert StepAt(t, i) && StepAt(t, j);
    IdleOnce(t.states[i], t.ins[i]);
    IdleOnce(t.states[j], t.ins[j]);
    if t.acts[i].StartDhcp? {
      NeverIdleAgain(t, i + 1, j);
    }
  }

  // ---- attempts ------------------------------------------------------------------------------

  predicate Asking(p: Phase) {
    p.Dhcp? || p.Retry?
  }

  function Elapsed(ins: seq<Input>): (e: seq<u32>)
    ensures |e| == |ins|
  {
    seq(|ins|, k requires 0 <= k < |ins| => ins[k].elapsed)
  }

  // No step from i to j is so long that an attempt's time wraps around.
  ghost predicate NoWrap(t: Trace, i: nat, j: nat)
    requires i <= j <= |t.ins|
  {
    forall k :: i <= k < j ==> t.ins[k].elapsed <= TWO32 - ATTEMPT_MS
  }

  lemma AttemptBegins(s: State, i: Input)
    requires Sound(s) && !Asking(s.phase) && Asking(Step(s, i).0.phase)
    ensures Step(s, i).0.ms == 0
  {
    hide Doubled, Wrap32;
  }

  lemma AttemptStep(s: State, i: Input)
    requires Sound(s) && Asking(s.phase) && Asking(Step(s, i).0.phase) && s.ms < ATTEMPT_MS
    requires i.elapsed <= TWO32 - ATTEMPT_MS
    ensures Step(s, i).0.ms == s.ms + i.elapsed < ATTEMPT_MS && Step(s, i).0.phase == s.phase
  {
  }

  // From a clock at 0 its time is what passed, and under 55 s.
  lemma {:induction false} AttemptRuns(t: Trace, i: nat, j: nat)
    requires Runs(t) && i <= j <= |t.ins| && NoWrap(t, i, j)
    requires t.states[i].ms == 0 && forall k :: i <= k <= j ==> Asking(t.states[k].phase)
    ensures t.states[j].ms == Total(Elapsed(t.ins), i, j) < ATTEMPT_MS
    decreases j
  {
    if i < j {
      AttemptRuns(t, i, j - 1);
      assert StepAt(t, j - 1);
      AttemptStep(t.states[j - 1], t.ins[j - 1]);
      hide Step;
    }
  }

  // A DHCP attempt, the first or a later one, begun at step i and still running at j has lasted
  // under 55 s.
  lemma AttemptEnds(t: Trace, i: nat, j: nat)
    requires Runs(t) && 0 < i <= j <= |t.ins| && NoWrap(t, i, j)
    requires !Asking(t.states[i - 1].phase) && forall k :: i <= k <= j ==> Asking(t.states[k].phase)
    ensures Total(Elapsed(t.ins), i, j) < ATTEMPT_MS
  {
    assert StepAt(t, i - 1);
    AttemptBegins(t.states[i - 1], t.ins[i - 1]);
    AttemptRuns(t, i, j);
  }

  // It goes on exactly while no lease came, the client runs, and its time so far is under 45 s, or
  // under 55 s with an offer being taken; then the node probes, or waits beside its address.
  lemma GoesOnExactly(t: Trace, i: nat, j: nat)
    requires Runs(t) && 0 < i <= j < |t.ins| && NoWrap(t, i, j + 1)
    requires !Asking(t.states[i - 1].phase) && forall k :: i <= k <= j ==> Asking(t.states[k].phase)
    ensures
      var e := Total(Elapsed(t.ins), i, j + 1);
      Asking(t.states[j + 1].phase) <==>
      !t.ins[j].leased && t.ins[j].dhcpRunning && (e < 45000 || (t.ins[j].binding && e < 55000))
    ensures
      t.states[j + 1].phase ==
        if t.ins[j].leased then Leased else if Asking(t.states[j + 1].phase) then t.states[j].phase
        else if t.states[j].phase.Dhcp? then Probe else Held
  {
    assert StepAt(t, i - 1) && StepAt(t, j);
    AttemptBegins(t.states[i - 1], t.ins[i - 1]);
    AttemptRuns(t, i, j);
    AttemptNext(t.states[j], t.ins[j]);
    assert Total(Elapsed(t.ins), i, j + 1) == t.states[j].ms + t.ins[j].elapsed;
    hide Step, Total, Elapsed, StepAt, Runs;
  }

  lemma AttemptNext(s: State, i: Input)
    requires Sound(s) && Asking(s.phase) && s.ms + i.elapsed < TWO32
    ensures
      var e, s' := s.ms + i.elapsed, Step(s, i).0;
      && (Asking(s'.phase) <==> !i.leased && i.dhcpRunning && (e < 45000 || (i.binding && e < 55000)))
      && s'.phase ==
           if i.leased then Leased else if Asking(s'.phase) then s.phase else if s.phase.Dhcp? then Probe else Held
  {
    hide Doubled;
  }

  // Exactly when a step of e ms is bound to end one.
  lemma EndsExactly(s: State, e: u32)
    requires Sound(s) && Asking(s.phase) && s.ms < ATTEMPT_MS
    ensures
      (forall i: Input :: i.elapsed == e && !i.leased ==> !Asking(Step(s, i).0.phase))
      <==> ATTEMPT_MS <= s.ms + e && !(TWO32 <= s.ms + e < TWO32 + ATTEMPT_MS)
  {
    var i := Input(e, 1, true, true, false, true, false, 0, true, NoRouter);
    assert !Asking(Step(s, i).0.phase) <==> Wrap32(s.ms + e) >= ATTEMPT_MS;
  }

  // One that is not: an attempt 1 ms old, after a step of 2^32 - 1 ms, is 0 ms old.
  lemma OutlastsItsTime(s: State, i: Input)
    requires Sound(s) && Asking(s.phase) && s.ms == 1 && i.elapsed == 0xFFFF_FFFF && i.dhcpRunning && !i.leased
    ensures Step(s, i).0.phase == s.phase && Step(s, i).0.ms == 0
  {
  }

  // ---- waits -------------------------------------------------------------------------------

  ghost predicate Waits(t: Trace, i: nat, j: nat)
    requires Runs(t) && i <= j <= |t.ins|
  {
    && t.states[i].phase.Held? && t.states[i].ms == 0
    && (forall k :: i <= k <= j ==> t.states[k].phase.Held?)
    && (forall k :: i <= k < j ==> t.ins[k].dhcp && t.ins[k].routes > 0)
  }

  // From a clock at 0.
  lemma {:induction false} WaitRuns(t: Trace, i: nat, j: nat)
    requires Runs(t) && i <= j <= |t.ins| && Waits(t, i, j)
    ensures t.states[j].ms == Total(Elapsed(t.ins), i, j) < MAX_MS
    decreases j
  {
    if i < j {
      WaitRuns(t, i, j - 1);
      assert StepAt(t, j - 1);
    }
  }

  lemma WaitBegins(s: State, i: Input)
    requires Sound(s) && !s.phase.Held? && Step(s, i).0.phase.Held?
    ensures Step(s, i).0.ms == 0
  {
    hide Doubled, Wrap32;
  }

  // With a route and DHCP on, a node that began to wait beside its address at step i and still
  // waits at j has waited under 600 s.
  lemma WaitEnds(t: Trace, i: nat, j: nat)
    requires Runs(t) && 0 < i <= j <= |t.ins| && !t.states[i - 1].phase.Held?
    requires forall k :: i <= k <= j ==> t.states[k].phase.Held?
    requires forall k :: i <= k < j ==> t.ins[k].dhcp && t.ins[k].routes > 0
    ensures Total(Elapsed(t.ins), i, j) < MAX_MS
  {
    assert StepAt(t, i - 1);
    WaitBegins(t.states[i - 1], t.ins[i - 1]);
    hide Step;
    WaitRuns(t, i, j);
  }

  function Least(a: nat, b: nat): nat {
    if a < b then a else b
  }

  // The clock of a wait, DHCP on: its whole time, which it counts as far as it goes.
  lemma {:induction false} WaitClock(t: Trace, i: nat, j: nat)
    requires Runs(t) && 0 < i <= j <= |t.ins| && !t.states[i - 1].phase.Held?
    requires forall k :: i <= k <= j ==> t.states[k].phase.Held?
    requires forall k :: i <= k < j ==> t.ins[k].dhcp
    ensures t.states[j].ms == Least(Total(Elapsed(t.ins), i, j), U32_MAX)
    decreases j
  {
    if i == j {
      assert StepAt(t, i - 1);
      WaitBegins(t.states[i - 1], t.ins[i - 1]);
    } else {
      WaitClock(t, i, j - 1);
      assert StepAt(t, j - 1);
    }
    hide Doubled, Wrap32;
  }

  // DHCP is asked again beside the address exactly when there is a route and the wait has lasted
  // 30 s doubled once for each failure since a gateway or a first route came, at most 600 s.
  lemma RetriesExactly(t: Trace, i: nat, j: nat)
    requires Runs(t) && 0 < i <= j < |t.ins| && !t.states[i - 1].phase.Held?
    requires forall k :: i <= k <= j ==> t.states[k].phase.Held? && t.ins[k].dhcp
    ensures
      var level := if Rises(t, j) then 0 else t.states[j].level;
      && (t.acts[j].StartRetry? <==>
            t.ins[j].routes > 0 && Total(Elapsed(t.ins), i, j + 1) >= Doubled(30000, level))
      && t.states[j + 1].level == (if t.acts[j].StartRetry? then Least(level + 1, 255) else level)
  {
    WaitClock(t, i, j);
    NotedAt(t, j);
    assert StepAt(t, j);
    assert Doubled(30000, Noted(t.states[j], t.ins[j]).level) <= MAX_MS;
    hide Doubled, Wrap32;
  }

  // ---- candidates -----------------------------------------------------------------------------

  // bat_mode_static_ip's last byte, after 10.41.253.
  function StaticHost(soft3: u8, soft4: u8, soft5: u8, attempt: nat): u8 {
    var id := (soft3 * 0x1_0000 + soft4 * 0x100 + soft5) / 4;
    2 + (id + attempt) % 252
  }

  // The nine candidates of one node are nine addresses, none the network's first or last two.
  lemma CandidatesDiffer(soft3: u8, soft4: u8, soft5: u8, a: nat, b: nat)
    requires a <= STATIC_TRIES && b <= STATIC_TRIES
    ensures 2 <= StaticHost(soft3, soft4, soft5, a) <= 253
    ensures StaticHost(soft3, soft4, soft5, a) == StaticHost(soft3, soft4, soft5, b) <==> a == b
  {
    var id := (soft3 * 0x1_0000 + soft4 * 0x100 + soft5) / 4;
    ShiftModulo(id, a);
    ShiftModulo(id, b);
  }

  lemma ShiftModulo(id: nat, a: nat)
    requires a <= STATIC_TRIES
    ensures (id + a) % 252 == if id % 252 + a < 252 then id % 252 + a else id % 252 + a - 252
  {
  }

  // The last byte for a MAC address whose low three bytes read m.
  function HostOf(m: nat, attempt: nat): u8
    requires m < 0x100_0000
  {
    StaticHost(m / 0x1_0000, m / 0x100 % 0x100, m % 0x100, attempt)
  }

  lemma HostIs(m: nat, attempt: nat)
    requires m < 0x100_0000
    ensures HostOf(m, attempt) == 2 + (m / 4 + attempt) % 252
  {
    assert m / 0x1_0000 * 0x1_0000 + m / 0x100 % 0x100 * 0x100 + m % 0x100 == m;
  }

  // The next attempt is the next slot along, from .253 on to .2; and so is the next chip of a
  // batch, whose addresses come in fours.
  lemma NextSlot(m: nat, attempt: nat)
    requires m + 4 < 0x100_0000
    ensures HostOf(m, attempt + 1) == if HostOf(m, attempt) == 253 then 2 else HostOf(m, attempt) + 1
    ensures HostOf(m + 4, attempt) == HostOf(m, attempt + 1)
    ensures m < 4 ==> HostOf(m, 0) == 2
  {
    hide HostOf;
    HostIs(m, attempt);
    HostIs(m, attempt + 1);
    HostIs(m + 4, attempt);
    HostIs(m, 0);
    Quarter(m, 1);
    SlotNext(m / 4 + attempt);
  }

  lemma SlotNext(x: nat)
    ensures (x + 1) % 252 == if x % 252 == 251 then 0 else x % 252 + 1
  {
  }

  lemma Quarter(m: nat, k: nat)
    ensures (m + 4 * k) / 4 == m / 4 + k
  {
  }

  // 252 chips of one batch ask for 252 addresses.
  lemma BatchDiffers(m: nat, k: nat, l: nat)
    requires k < 252 && l < 252 && m + 4 * 251 < 0x100_0000
    ensures HostOf(m + 4 * k, 0) == HostOf(m + 4 * l, 0) <==> k == l
  {
    hide HostOf;
    HostIs(m + 4 * k, 0);
    HostIs(m + 4 * l, 0);
    Quarter(m, k);
    Quarter(m, l);
    Apart(m / 4, k, l);
  }

  lemma Apart(b: nat, k: nat, l: nat)
    requires k < 252 && l < 252
    ensures (b + k) % 252 == (b + l) % 252 <==> k == l
  {
  }
}
