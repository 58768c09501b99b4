// Addressing without batman (main/mesh_addr.c): DHCP from the first peer, then the static
// address, beside which DHCP is asked again until a lease replaces it.
module MeshAddr {
  import opened Words
  import opened Backoff

  const DHCP_WAIT_MS: int := 6000
  const ATTEMPT_MS: int := 12000
  const BIND_GRACE_MS: int := 10000
  const RETRY_FIRST_MS: int := 30000
  const U32_MAX: int := 0xFFFF_FFFF

  datatype Phase = Idle | Dhcp | Leased | Held | Retry

  datatype Act = Nothing | StartDhcp | GotLease | Static | StartRetry | Hold | RetryFail

  datatype Input = Input(elapsed: u32, estab: bool, peers: u8, dhcp: bool, dhcpRunning: bool,
                         leased: bool, haveIp: bool, binding: bool)

  datatype State = State(phase: Phase, level: u8, prevPeers: u8, joined: bool, stretched: bool, ms: u32, retries: u32)

  const START: State := State(Idle, 0, 0, false, false, 0, 0)

  predicate AttemptOn(ms: u32, i: Input, len: nat) {
    i.dhcpRunning && (ms < len || (i.binding && ms < len + BIND_GRACE_MS))
  }

  function ToLeased(s: State): (State, Act) {
    (s.(phase := Leased, level := 0, joined := false), GotLease)
  }

  predicate Rise(s: State, i: Input) {
    i.peers > s.prevPeers
  }

  function Saturated(ms: u32, e: u32): u32 {
    if ms > U32_MAX - e then U32_MAX else ms + e
  }

  // The state as the switch finds it.
  function Noted(s: State, i: Input): State {
    var s1 := s.(prevPeers := i.peers);
    if Rise(s, i) then s1.(level := 0, joined := s.joined || s.phase.Dhcp?) else s1
  }

  function Step(s0: State, i: Input): (State, Act) {
    var s := Noted(s0, i);
    match s.phase
    case Idle =>
      if !i.estab then (s, Nothing)
      else if i.dhcp then (s.(ms := 0, phase := Dhcp), StartDhcp)
      else (s.(ms := 0, phase := Held), Static)
    case Dhcp =>
      if i.leased then ToLeased(s)
      else if AttemptOn(Wrap32(s.ms + i.elapsed), i, DHCP_WAIT_MS) then (s.(ms := Wrap32(s.ms + i.elapsed)), Nothing)
      else (s.(ms := 0, phase := Held), Static)
    case Leased =>
      if i.leased then (s, Nothing) else (s.(ms := 0, stretched := false, phase := Retry), Hold)
    case Held => HeldStep(s, Rise(s0, i), i)
    case Retry => RetryStep(s, Rise(s0, i), i)
  }

  function HeldStep(s: State, rise: bool, i: Input): (State, Act) {
    var ms := Saturated(s.ms, i.elapsed);
    var due := rise || s.joined;
    if !i.dhcp || i.peers == 0 || (!due && ms < Doubled(RETRY_FIRST_MS, s.level)) then (s.(ms := ms), Nothing)
    else
      (s.(level := if !due && s.level < 255 then s.level + 1 else s.level, joined := false,
          retries := Wrap32(s.retries + 1), ms := 0, stretched := false, phase := Retry), StartRetry)
  }

  function RetryStep(s: State, rise: bool, i: Input): (State, Act) {
    if i.leased then ToLeased(s)
    else
      var again := rise && !s.stretched;
      var s1 := s.(ms := if again then i.elapsed else Wrap32(s.ms + i.elapsed), stretched := s.stretched || again);
      if AttemptOn(s1.ms, i, ATTEMPT_MS) then (s1, if i.haveIp then Nothing else Hold)
      else (s1.(ms := 0, phase := Held), RetryFail)
  }

  class Machine {
    var phase: Phase
    var level: u8
    var prevPeers: u8
    var joined: bool
    var stretched: bool
    var ms: u32
    var retries: u32

    function Now(): State
      reads this
    {
      State(phase, level, prevPeers, joined, stretched, ms, retries)
    }

    constructor ()
      ensures Now() == START
    {
      phase, level, prevPeers, joined, stretched, ms, retries := Idle, 0, 0, false, false, 0, 0;
    }

    // mesh_addr_step
    method Advance(i: Input) returns (act: Act)
      modifies this
      ensures (Now(), act) == Step(old(Now()), i)
    {
      hide Wrap32, AttemptOn, HeldStep, RetryStep;
      var rise := i.peers > prevPeers;
      prevPeers := i.peers;
      if rise {
        level := 0;
        joined := joined || phase == Dhcp;
      }
      match phase {
        case Idle =>
          if !i.estab {
            return Nothing;
          }
          ms := 0;
          phase := if i.dhcp then Dhcp else Held;
          return if i.dhcp then StartDhcp else Static;
        case Dhcp =>
          if i.leased {
            phase, level, joined := Leased, 0, false;
            return GotLease;
          }
          ms := Wrap32(ms + i.elapsed);
          if AttemptOn(ms, i, DHCP_WAIT_MS) {
            return Nothing;
          }
          ms, phase := 0, Held;
          return Static;
        case Leased =>
          if i.leased {
            return Nothing;
          }
          ms, stretched, phase := 0, false, Retry;
          return Hold;
        case Held =>
          act := AdvanceHeld(rise, i);
        case Retry =>
          act := AdvanceRetry(rise, i);
      }
    }

    method AdvanceHeld(rise: bool, i: Input) returns (act: Act)
      requires phase.Held?
      modifies this
      ensures (Now(), act) == HeldStep(old(Now()), rise, i)
    {
      hide Doubled, Wrap32;
      ms := if ms > U32_MAX - i.elapsed then U32_MAX else ms + i.elapsed;
      if !i.dhcp || i.peers == 0 {
        return Nothing;
      }
      if !rise && !joined {
        var wait := DoubledWait(RETRY_FIRST_MS, level);
        if ms < wait {
          return Nothing;
        }
        if level < 255 {
          level := level + 1;
        }
      }
      joined, retries, ms, stretched, phase := false, Wrap32(retries + 1), 0, false, Retry;
      return StartRetry;
    }

    method AdvanceRetry(rise: bool, i: Input) returns (act: Act)
      requires phase.Retry?
      modifies this
      ensures (Now(), act) == RetryStep(old(Now()), rise, i)
    {
      hide Wrap32, AttemptOn;
      if i.leased {
        phase, level, joined := Leased, 0, false;
        return GotLease;
      }
      if rise && !stretched {
        ms, stretched := i.elapsed, true;
      } else {
        ms := Wrap32(ms + i.elapsed);
      }
      if AttemptOn(ms, i, ATTEMPT_MS) {
        return if i.haveIp then Nothing else Hold;
      }
      ms, phase := 0, Held;
      return RetryFail;
    }
  }

  // ---- every run ---------------------------------------------------------------------------

  datatype Trace = Trace(states: seq<State>, ins: seq<Input>, acts: seq<Act>)

  ghost predicate Runs(t: Trace) {
    && |t.acts| == |t.ins| && |t.states| == |t.ins| + 1 && t.states[0] == START
    && forall k :: 0 <= k < |t.ins| ==> (t.states[k + 1], t.acts[k]) == Step(t.states[k], t.ins[k])
  }

  function Elapsed(ins: seq<Input>): (e: seq<u32>)
    ensures |e| == |ins|
  {
    seq(|ins|, k requires 0 <= k < |ins| => ins[k].elapsed)
  }

  // How far along the one-way start is: before it, asking the first time, past it.
  function Rank(p: Phase): nat {
    if p.Idle? then 0 else if p.Dhcp? then 1 else 2
  }

  lemma {:induction false} RankRises(t: Trace, i: nat, j: nat)
    requires Runs(t) && i <= j < |t.states|
    ensures Rank(t.states[i].phase) <= Rank(t.states[j].phase)
    decreases j - i
  {
    if i < j {
      assert (t.states[i + 1], t.acts[i]) == Step(t.states[i], t.ins[i]);
      RankRises(t, i + 1, j);
    }
  }

  // The client is first started once and the static address taken once, whatever comes.
  lemma StartsOnce(t: Trace, i: nat, j: nat)
    requires Runs(t) && i < j < |t.acts|
    ensures !(t.acts[i].StartDhcp? && t.acts[j].StartDhcp?)
    ensures !(t.acts[i].Static? && t.acts[j].Static?)
    ensures !(t.acts[i].Static? && t.acts[j].StartDhcp?)
  {
    RankRises(t, i + 1, j);
    assert (t.states[i + 1], t.acts[i]) == Step(t.states[i], t.ins[i]);
    assert (t.states[j + 1], t.acts[j]) == Step(t.states[j], t.ins[j]);
  }

  // ---- the address -----------------------------------------------------------------------

  datatype Address = NoAddress | StaticIp | LeasedIp

  // What the actions so far left the interface with.
  function AddressAfter(acts: seq<Act>): Address {
    if acts == [] then NoAddress
    else
      match acts[|acts| - 1]
      case Static => StaticIp
      case Hold => StaticIp
      case GotLease => LeasedIp
      case _ => AddressAfter(acts[..|acts| - 1])
  }

  // At every moment of every run: none up to the first one, the lease while it lasts, and else the
  // static address, a dropped lease's place being taken at once.
  lemma {:induction false} AddressFollows(t: Trace, k: nat)
    requires Runs(t) && k < |t.states|
    ensures
      AddressAfter(t.acts[..k]) ==
        match t.states[k].phase
        case Idle => NoAddress
        case Dhcp => NoAddress
        case Leased => LeasedIp
        case Held => StaticIp
        case Retry => StaticIp
  {
    if k > 0 {
      AddressFollows(t, k - 1);
      assert (t.states[k], t.acts[k - 1]) == Step(t.states[k - 1], t.ins[k - 1]);
      assert t.acts[..k][..k - 1] == t.acts[..k - 1];
      hide Doubled, Wrap32;
    }
  }

  // The address is set up again exactly when a lease is dropped, or when the interface has none
  // in an attempt that goes on; a lease is taken exactly when there is one to take.
  lemma HoldsExactly(t: Trace, k: nat)
    requires Runs(t) && k < |t.acts|
    ensures
      t.acts[k].Hold? <==>
      && !t.ins[k].leased && t.states[k + 1].phase.Retry?
      && (t.states[k].phase.Leased? || (t.states[k].phase.Retry? && !t.ins[k].haveIp))
    ensures t.states[k].phase.Leased? ==> t.states[k + 1].phase == if t.ins[k].leased then Leased else Retry
    ensures t.acts[k].GotLease? <==> t.ins[k].leased && (t.states[k].phase.Dhcp? || t.states[k].phase.Retry?)
  {
    assert (t.states[k + 1], t.acts[k]) == Step(t.states[k], t.ins[k]);
    hide Doubled, Wrap32;
  }

  function CountOf(acts: seq<Act>, a: Act): nat {
    if acts == [] then 0 else CountOf(acts[..|acts| - 1], a) + if acts[|acts| - 1] == a then 1 else 0
  }

  // The counter counts the attempts after the first of the whole run; prevPeers is what it says.
  lemma {:induction false} CountersAre(t: Trace, k: nat)
    requires Runs(t) && k < |t.states|
    ensures t.states[k].retries == Wrap32(CountOf(t.acts[..k], StartRetry))
    ensures t.states[k].prevPeers == if k == 0 then 0 else t.ins[k - 1].peers
  {
    if k > 0 {
      CountersAre(t, k - 1);
      assert (t.states[k], t.acts[k - 1]) == Step(t.states[k - 1], t.ins[k - 1]);
      assert t.acts[..k][..k - 1] == t.acts[..k - 1] && t.acts[..k][k - 1] == t.acts[k - 1];
      hide Step, Wrap32;
      CounterStep(t.states[k - 1], t.ins[k - 1]);
      WrapNext(CountOf(t.acts[..k - 1], StartRetry));
    }
  }

  lemma CounterStep(s: State, i: Input)
    ensures
      var (s', act) := Step(s, i);
      s'.retries == (if act.StartRetry? then Wrap32(s.retries + 1) else s.retries) && s'.prevPeers == i.peers
  {
    hide Doubled, Wrap32;
  }

  // The start waits for a peer, then asks DHCP, or takes the static address if it is off.
  lemma StartsExactly(t: Trace, k: nat)
    requires Runs(t) && k < |t.acts| && t.states[k].phase.Idle?
    ensures
      (t.acts[k], t.states[k + 1].phase) ==
        if !t.ins[k].estab then (Nothing, Idle) else if t.ins[k].dhcp then (StartDhcp, Dhcp) else (Static, Held)
  {
    assert (t.states[k + 1], t.acts[k]) == Step(t.states[k], t.ins[k]);
    hide Doubled, Wrap32;
  }

  // No step from i to j is so long that an attempt's time wraps around.
  ghost predicate NoWrap(t: Trace, i: nat, j: nat)
    requires i <= j <= |t.ins|
  {
    forall k :: i <= k < j ==> t.ins[k].elapsed <= TWO32 - (ATTEMPT_MS + BIND_GRACE_MS)
  }

  // The steps from i to j are all in one attempt beside the static address, its clock at 0.
  ghost predicate InAttempt(t: Trace, i: nat, j: nat)
    requires Runs(t) && i <= j <= |t.ins|
  {
    && t.states[i].phase.Retry? && t.states[i].ms == 0 && !t.states[i].stretched
    && forall k :: i <= k <= j ==> t.states[k].phase.Retry?
  }

  lemma AttemptStep(s: State, i: Input)
    requires s.phase.Retry? && Step(s, i).0.phase.Retry? && s.ms < ATTEMPT_MS + BIND_GRACE_MS
    requires i.elapsed <= TWO32 - (ATTEMPT_MS + BIND_GRACE_MS)
    ensures
      var s' := Step(s, i).0;
      s'.ms < ATTEMPT_MS + BIND_GRACE_MS && (s.stretched ==> s'.stretched)
      && s'.ms == if s'.stretched && !s.stretched then i.elapsed else s.ms + i.elapsed
  {
    hide Doubled;
  }

  // From a clock at 0: its time starts over once only.
  lemma {:induction false} AttemptRuns(t: Trace, i: nat, j: nat)
    requires Runs(t) && i <= j <= |t.ins| && NoWrap(t, i, j) && InAttempt(t, i, j)
    ensures t.states[j].ms < ATTEMPT_MS + BIND_GRACE_MS
    ensures
      if t.states[j].stretched then Total(Elapsed(t.ins), i, j) < ATTEMPT_MS + BIND_GRACE_MS + t.states[j].ms
      else Total(Elapsed(t.ins), i, j) == t.states[j].ms
    ensures Total(Elapsed(t.ins), i, j) < 44000
    decreases j
  {
    if i < j {
      AttemptRuns(t, i, j - 1);
      assert (t.states[j], t.acts[j - 1]) == Step(t.states[j - 1], t.ins[j - 1]);
      AttemptStep(t.states[j - 1], t.ins[j - 1]);
      hide Step, Runs;
    }
  }

  // Every attempt begins with its clock at 0 and unstretched.
  lemma AttemptBegins(s: State, i: Input)
    requires !s.phase.Retry? && Step(s, i).0.phase.Retry?
    ensures Step(s, i).0.ms == 0 && !Step(s, i).0.stretched
    ensures Step(s, i).1.StartRetry? || Step(s, i).1.Hold?
  {
  }

  // An attempt begun at step i and still running at j has lasted under 44 s in all, however the
  // peers come and go.
  lemma AttemptEnds(t: Trace, i: nat, j: nat)
    requires Runs(t) && 0 < i <= j <= |t.ins| && NoWrap(t, i, j)
    requires !t.states[i - 1].phase.Retry? && forall k :: i <= k <= j ==> t.states[k].phase.Retry?
    ensures Total(Elapsed(t.ins), i, j) < 44000
  {
    assert (t.states[i], t.acts[i - 1]) == Step(t.states[i - 1], t.ins[i - 1]);
    AttemptBegins(t.states[i - 1], t.ins[i - 1]);
    hide Step;
    AttemptRuns(t, i, j);
  }

  // Exactly when a step of e ms is bound to end an attempt: when its time is up and the 32-bit
  // clock has not come round to a small number again; one that a peer joining can still start
  // over must outlast a whole attempt by itself.
  lemma EndsExactly(s: State, e: u32)
    requires s.phase.Retry? && s.ms < ATTEMPT_MS + BIND_GRACE_MS
    ensures
      (forall i: Input :: i.elapsed == e && !i.leased ==> Step(s, i).0.phase.Held?)
      <==>
      && ATTEMPT_MS + BIND_GRACE_MS <= s.ms + e && !(TWO32 <= s.ms + e < TWO32 + ATTEMPT_MS + BIND_GRACE_MS)
      && (s.stretched || s.prevPeers == 255 || ATTEMPT_MS + BIND_GRACE_MS <= e)
  {
    var i := Input(e, true, 0, true, true, false, true, true);
    assert Step(s, i).0.phase.Held? <==> Wrap32(s.ms + e) >= ATTEMPT_MS + BIND_GRACE_MS;
    if s.prevPeers < 255 {
      var joins := i.(peers := 255);
      assert s.stretched || (Step(s, joins).0.phase.Held? <==> e >= ATTEMPT_MS + BIND_GRACE_MS);
    }
    hide Doubled;
  }

  // An attempt goes on exactly while no lease came, the client runs, and its clock is under 6 s, or
  // 12 s beside the static address, or under 10 s more with an offer being taken. A peer that
  // joins beside the static address starts the clock over, the first time.
  lemma GoesOnExactly(t: Trace, k: nat)
    requires Runs(t) && k < |t.ins| && (t.states[k].phase.Dhcp? || t.states[k].phase.Retry?)
    ensures
      var s, s', i := t.states[k], t.states[k + 1], t.ins[k];
      var again := s.phase.Retry? && i.peers > s.prevPeers && !s.stretched;
      var clock := if again then i.elapsed else (s.ms + i.elapsed) % 0x1_0000_0000;
      var length := if s.phase.Dhcp? then 6000 else 12000;
      && (s'.phase == s.phase <==>
            !i.leased && i.dhcpRunning && (clock < length || (i.binding && clock < length + 10000)))
      && (s'.phase == s.phase ==> s'.ms == clock && (s.phase.Retry? ==> s'.stretched == (s.stretched || again)))
      && (s'.phase != s.phase ==> s'.phase == if i.leased then Leased else Held)
  {
    assert (t.states[k + 1], t.acts[k]) == Step(t.states[k], t.ins[k]);
    hide Doubled;
  }

  // One that does not: an attempt 1 ms old, after a step of 2^32 - 1 ms, is 0 ms old.
  lemma OutlastsItsTime(s: State, i: Input)
    requires s.phase.Retry? && s.ms == 1 && i.elapsed == 0xFFFF_FFFF && i.dhcpRunning && !i.leased && !Rise(s, i)
    ensures Step(s, i).0.phase.Retry? && Step(s, i).0.ms == 0
  {
  }

  // The wait between attempts.
  lemma WaitIs(s: State, i: Input)
    requires s.phase.Held? && i.dhcp && i.peers > 0 && !Rise(s, i) && !s.joined
    ensures Step(s, i).1.StartRetry? <==> Saturated(s.ms, i.elapsed) >= Doubled(RETRY_FIRST_MS, s.level)
    ensures Step(s, i).1.StartRetry? && s.level < 255 ==> Step(s, i).0.level == s.level + 1
  {
  }

  ghost predicate Waits(t: Trace, i: nat, j: nat)
    requires Runs(t) && i <= j <= |t.ins|
  {
    && t.states[i].phase.Held? && t.states[i].ms == 0
    && (forall k :: i <= k <= j ==> t.states[k].phase.Held?)
    && (forall k :: i <= k < j ==> t.ins[k].dhcp && t.ins[k].peers > 0)
  }

  // From a clock at 0.
  lemma {:induction false} WaitRuns(t: Trace, i: nat, j: nat)
    requires Runs(t) && i <= j <= |t.ins| && Waits(t, i, j)
    ensures t.states[j].ms == Total(Elapsed(t.ins), i, j) < MAX_MS
    decreases j
  {
    if i < j {
      WaitRuns(t, i, j - 1);
      assert (t.states[j], t.acts[j - 1]) == Step(t.states[j - 1], t.ins[j - 1]);
    }
  }

  lemma WaitBegins(s: State, i: Input)
    requires !s.phase.Held? && Step(s, i).0.phase.Held?
    ensures Step(s, i).0.ms == 0
  {
    hide Doubled, Wrap32;
  }

  // With a peer and DHCP on, a node that began to wait at step i and still waits at j has waited
  // under 600 s: the next attempt is at most that and one step after the last.
  lemma WaitEnds(t: Trace, i: nat, j: nat)
    requires Runs(t) && 0 < i <= j <= |t.ins| && !t.states[i - 1].phase.Held?
    requires forall k :: i <= k <= j ==> t.states[k].phase.Held?
    requires forall k :: i <= k < j ==> t.ins[k].dhcp && t.ins[k].peers > 0
    ensures Total(Elapsed(t.ins), i, j) < MAX_MS
  {
    assert (t.states[i], t.acts[i - 1]) == Step(t.states[i - 1], t.ins[i - 1]);
    WaitBegins(t.states[i - 1], t.ins[i - 1]);
    hide Step;
    WaitRuns(t, i, j);
  }

  function Least(a: nat, b: nat): nat {
    if a < b then a else b
  }

  // The clock of a wait: its whole time, which it counts as far as it goes.
  lemma {:induction false} WaitClock(t: Trace, i: nat, j: nat)
    requires Runs(t) && 0 < i <= j <= |t.ins| && !t.states[i - 1].phase.Held?
    requires forall k :: i <= k <= j ==> t.states[k].phase.Held?
    ensures t.states[j].ms == Least(Total(Elapsed(t.ins), i, j), U32_MAX)
    decreases j
  {
    assert (t.states[j], t.acts[j - 1]) == Step(t.states[j - 1], t.ins[j - 1]);
    var e := Elapsed(t.ins);
    assert |e| == |t.ins| && (i < j ==> Total(e, i, j) == Total(e, i, j - 1) + t.ins[j - 1].elapsed);
    assert Total(e, i, i) == 0;
    hide Step, Runs, Total, Elapsed;
    if i == j {
      WaitBegins(t.states[i - 1], t.ins[i - 1]);
    } else {
      HeldClock(t.states[j - 1], t.ins[j - 1]);
      WaitClock(t, i, j - 1);
    }
  }

  lemma HeldClock(s: State, i: Input)
    requires s.phase.Held? && Step(s, i).0.phase.Held?
    ensures Step(s, i).0.ms == Least(s.ms + i.elapsed, U32_MAX)
  {
    hide Doubled, Wrap32;
  }

  // DHCP is asked again exactly when it is on, a peer is there, and one has just joined, or did
  // during the first attempt, or the wait has lasted 30 s doubled once for each failure since a
  // peer joined, at most 600 s.
  lemma RetriesExactly(t: Trace, i: nat, j: nat)
    requires Runs(t) && 0 < i <= j < |t.ins| && !t.states[i - 1].phase.Held?
    requires forall k :: i <= k <= j ==> t.states[k].phase.Held?
    ensures
      var joins := t.ins[j].peers > t.states[j].prevPeers;
      var level := if joins then 0 else t.states[j].level;
      && (t.acts[j].StartRetry? <==>
            t.ins[j].dhcp && t.ins[j].peers > 0
            && (joins || t.states[j].joined || Total(Elapsed(t.ins), i, j + 1) >= Doubled(30000, level)))
      && t.states[j + 1].level ==
           (if t.acts[j].StartRetry? && !joins && !t.states[j].joined then Least(level + 1, 255) else level)
  {
    WaitClock(t, i, j);
    assert (t.states[j + 1], t.acts[j]) == Step(t.states[j], t.ins[j]);
    assert Doubled(30000, Noted(t.states[j], t.ins[j]).level) <= MAX_MS;
    hide Doubled, Wrap32;
  }

  // And what joined says: a peer joined during the first attempt and was not asked since.
  lemma JoinedIs(t: Trace, k: nat)
    requires Runs(t) && k < |t.ins|
    ensures
      t.states[k + 1].joined <==>
      && !t.acts[k].GotLease? && !t.acts[k].StartRetry?
      && (t.states[k].joined || (t.states[k].phase.Dhcp? && t.ins[k].peers > t.states[k].prevPeers))
    ensures t.states[k + 1].prevPeers == t.ins[k].peers
  {
    assert (t.states[k + 1], t.acts[k]) == Step(t.states[k], t.ins[k]);
    hide Doubled, Wrap32;
  }

  // A peer that joins is asked at once.
  lemma JoinIsAsked(s: State, i: Input)
    requires s.phase.Held? && i.dhcp && i.peers > 0 && (Rise(s, i) || s.joined)
    ensures Step(s, i).1.StartRetry?
  {
  }
}
