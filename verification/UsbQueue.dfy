// The USB transmit queue (main/usbnet_core.c): any number of tasks queue frames, the
// TinyUSB task alone takes them out, and at most one kick tells it to. Every region under
// the lock is one step, with the questions asked just before it: ready, can_xmit and xmit
// touch nothing the tasks share, so when they are called does not matter. Every allocation,
// free and kick outside the lock is a step of its own.
module UsbQueue {
  import opened Words

  const TXQ_N: int := 16
  const FRAME_MAX: int := 1514

  // A queued copy: buf names its buffer.
  datatype Frame = Frame(buf: nat, len: nat, t: u32)

  datatype Option<T> = None | Some(value: T)

  // What the lock guards, the counters without their wrap.
  datatype Shared = Shared(q: seq<Frame>, kickPending: bool, queued: nat, sent: nat,
                           dropFull: nat, dropNolink: nat, dropNomem: nat, dropBad: nat)

  // First region of usbnet_tx: no copy is made for a full queue.
  predicate FullFor(s: Shared, bad: bool, down: bool) {
    !bad && !down && |s.q| == TXQ_N
  }

  function CheckRegion(s: Shared, bad: bool, down: bool): Shared {
    if FullFor(s, bad, down) then s.(dropFull := s.dropFull + 1) else s
  }

  function Bit(b: bool): nat {
    if b then 1 else 0
  }

  datatype Outcome = Queued(kick: bool) | Dropped

  // Second region: the copy (None: no memory) is queued or its call is counted as a drop.
  function QueueRegion(s: Shared, bad: bool, down: bool, copy: Option<Frame>): (Shared, Outcome) {
    if bad then (s.(dropBad := s.dropBad + 1), Dropped)
    else if down then (s.(dropNolink := s.dropNolink + 1), Dropped)
    else if copy.None? then (s.(dropNomem := s.dropNomem + 1), Dropped)
    else if |s.q| == TXQ_N then (s.(dropFull := s.dropFull + 1), Dropped)
    else (s.(q := s.q + [copy.value], queued := s.queued + 1, kickPending := true), Queued(!s.kickPending))
  }

  // The region of pop_.
  function PopRegion(s: Shared, taken: bool): Shared
    requires s.q != []
  {
    if taken then s.(q := s.q[1..], sent := s.sent + 1) else s.(q := s.q[1..], dropNolink := s.dropNolink + 1)
  }

  // Calls counted so far: every one is sent, still queued, or in a drop counter.
  function Counted(s: Shared): nat {
    s.sent + |s.q| + s.dropFull + s.dropNolink + s.dropNomem + s.dropBad
  }

  // ---- the tasks -----------------------------------------------------------------------

  // Where a task is inside usbnet_tx.
  datatype Producer =
    | Idle
    | Checked(len: nat, bad: bool, down: bool)
    | Copied(len: nat, bad: bool, down: bool, copy: Option<nat>)
    | MustFree(buf: nat)
    | MustKick

  // Where the TinyUSB task is; flush: draining on detach.
  datatype Consumer =
    | Resting
    | Looking(flush: bool)
    | Holding(f: Frame)
    | Popping(f: Frame, taken: bool, flush: bool)
    | Freeing(buf: nat, flush: bool)

  datatype Place = InQueue | WithProducer(p: nat) | WithConsumer

  // owner: every live buffer and who has it. stopped: the last pump ended on a full class.
  // accepted, left: the frames queued and those taken out (true: into the class), in order.
  datatype State = State(sh: Shared, prod: map<nat, Producer>, cons: Consumer, kicks: nat, stopped: bool,
                         owner: map<nat, Place>, accepted: seq<Frame>, left: seq<(Frame, bool)>, calls: nat)

  datatype Event =
    | Check(p: nat, len: nat, ready: bool)
    | Copy(p: nat, got: Option<nat>)
    | Queue(p: nat, now: u32)
    | FreeCopy(p: nat)
    | Kick(p: nat)
    | Kicked
    | XferDone
    | Flush
    | Look
    | Judge(ready: bool, canXmit: bool)
    | Pop
    | Free

  function At(s: State, p: nat): Producer {
    if p in s.prod then s.prod[p] else Idle
  }

  predicate Enabled(s: State, e: Event) {
    match e
    case Check(p, _, _) => At(s, p).Idle?
    case Copy(p, got) => At(s, p).Checked? && (got.Some? ==> got.value !in s.owner)
    case Queue(p, _) => At(s, p).Copied?
    case FreeCopy(p) => At(s, p).MustFree?
    case Kick(p) => At(s, p).MustKick?
    case Kicked => s.cons.Resting? && s.kicks > 0
    case XferDone => s.cons.Resting?
    case Flush => s.cons.Resting?
    case Look => s.cons.Looking?
    case Judge(_, _) => s.cons.Holding?
    case Pop => s.cons.Popping? && s.sh.q != []
    case Free => s.cons.Freeing?
  }

  function Step(s: State, e: Event): State
    requires Enabled(s, e)
  {
    match e
    case Check(p, len, ready) =>
      var bad := len == 0 || len > FRAME_MAX;
      var down := !bad && !ready;
      var s' := s.(sh := CheckRegion(s.sh, bad, down));
      if FullFor(s.sh, bad, down) then s'.(calls := s.calls + 1)
      else s'.(prod := s.prod[p := Checked(len, bad, down)])
    case Copy(p, got) =>
      var c := At(s, p);
      var copy := if c.bad || c.down then None else got;
      var s' := s.(prod := s.prod[p := Copied(c.len, c.bad, c.down, copy)]);
      if copy.Some? then s'.(owner := s.owner[copy.value := WithProducer(p)]) else s'
    case Queue(p, now) =>
      var c := At(s, p);
      var frame := if c.copy.Some? then Some(Frame(c.copy.value, c.len, now)) else None;
      var (sh, o) := QueueRegion(s.sh, c.bad, c.down, frame);
      var s' := s.(sh := sh, calls := s.calls + 1);
      if o.Queued? then
        s'.(prod := s.prod[p := if o.kick then MustKick else Idle],
            owner := s.owner[frame.value.buf := InQueue], accepted := s.accepted + [frame.value])
      else s'.(prod := s.prod[p := if c.copy.Some? then MustFree(c.copy.value) else Idle])
    case FreeCopy(p) => s.(prod := s.prod[p := Idle], owner := s.owner - {At(s, p).buf})
    case Kick(p) => s.(prod := s.prod[p := Idle], kicks := s.kicks + 1)
    case Kicked => s.(kicks := s.kicks - 1, sh := s.sh.(kickPending := false), cons := Looking(false), stopped := false)
    case XferDone => s.(cons := Looking(false), stopped := false)
    case Flush => s.(cons := Looking(true), stopped := false)
    case Look =>
      if s.sh.q == [] then s.(cons := Resting)
      else if s.cons.flush then s.(cons := Popping(s.sh.q[0], false, true))
      else s.(cons := Holding(s.sh.q[0]))
    case Judge(ready, canXmit) =>
      if !ready then s.(cons := Popping(s.cons.f, false, false))
      else if !canXmit then s.(cons := Resting, stopped := true)
      else s.(cons := Popping(s.cons.f, true, false))
    case Pop =>
      s.(sh := PopRegion(s.sh, s.cons.taken), cons := Freeing(s.sh.q[0].buf, s.cons.flush),
         owner := s.owner[s.sh.q[0].buf := WithConsumer], left := s.left + [(s.sh.q[0], s.cons.taken)])
    case Free => s.(cons := Looking(s.cons.flush), owner := s.owner - {s.cons.buf})
  }

  const START: State := State(Shared([], false, 0, 0, 0, 0, 0, 0), map[], Resting, 0, false, map[], [], [], 0)

  // ---- what every run keeps -----------------------------------------------------------------

  function Frames(l: seq<(Frame, bool)>): seq<Frame> {
    seq(|l|, i requires 0 <= i < |l| => l[i].0)
  }

  // Frames leave in the order they were queued, and the queue is what has not left.
  ghost predicate InOrder(s: State) {
    |s.sh.q| <= TXQ_N && s.accepted == Frames(s.left) + s.sh.q
  }

  // Every finished call is sent, queued or dropped.
  ghost predicate AllCounted(s: State) {
    s.calls == Counted(s.sh)
  }

  // Kick pending means one kick queued, or one task about to post it: never two.
  ghost predicate OneKick(s: State) {
    && s.kicks <= 1
    && (s.kicks == 1 ==> s.sh.kickPending)
    && (forall p :: At(s, p).MustKick? ==> s.sh.kickPending && s.kicks == 0)
    && (forall p, r :: At(s, p).MustKick? && At(s, r).MustKick? ==> p == r)
    && (s.sh.kickPending ==> s.kicks == 1 || exists p :: At(s, p).MustKick?)
  }

  // A resting consumer with frames waiting will be woken.
  ghost predicate NoLostWakeup(s: State) {
    s.cons.Resting? && s.sh.q != [] ==> s.sh.kickPending || s.stopped
  }

  // What the consumer holds is still the queue's head.
  ghost predicate HeadHeld(s: State) {
    && (s.cons.Holding? || s.cons.Popping? ==> s.sh.q != [] && s.sh.q[0] == s.cons.f)
  }

  function HeldBy(c: Producer): Option<nat> {
    match c
    case Copied(_, _, _, copy) => copy
    case MustFree(b) => Some(b)
    case _ => None
  }

  // Every live buffer is in exactly one place, and that place has it.
  ghost predicate Owned(s: State) {
    QueueOwned(s) && HoldersOwn(s) && forall b :: b in s.owner ==> InPlace(s, b)
  }

  ghost predicate Inv(s: State) {
    InOrder(s) && AllCounted(s) && OneKick(s) && NoLostWakeup(s) && HeadHeld(s) && Owned(s)
  }

  lemma StartInv()
    ensures Inv(START)
  {
    assert Frames([]) == [];
  }

  lemma PopInOrder(s: State)
    requires InOrder(s) && Enabled(s, Pop)
    ensures InOrder(Step(s, Pop))
  {
    assert Frames(s.left + [(s.sh.q[0], s.cons.taken)]) == Frames(s.left) + [s.sh.q[0]];
    assert s.sh.q == [s.sh.q[0]] + s.sh.q[1..];
    assert Frames(s.left) + ([s.sh.q[0]] + s.sh.q[1..]) == (Frames(s.left) + [s.sh.q[0]]) + s.sh.q[1..];
  }

  lemma OrderKept(s: State, e: Event)
    requires InOrder(s) && Enabled(s, e)
    ensures InOrder(Step(s, e))
  {
    if e.Pop? {
      PopInOrder(s);
      hide Step, InOrder, Enabled;
    } else if e.Queue? {
      assert forall f :: Frames(s.left) + (s.sh.q + [f]) == (Frames(s.left) + s.sh.q) + [f];
      hide At, FullFor, Frames;
    } else {
      hide At, FullFor, Frames;
    }
  }

  lemma CountKept(s: State, e: Event)
    requires InOrder(s) && AllCounted(s) && Enabled(s, e)
    ensures AllCounted(Step(s, e))
  {
    hide InOrder, At;
  }

  // The producer an event belongs to.
  function Actor(e: Event): Option<nat> {
    match e
    case Check(p, _, _) => Some(p)
    case Copy(p, _) => Some(p)
    case Queue(p, _) => Some(p)
    case FreeCopy(p) => Some(p)
    case Kick(p) => Some(p)
    case _ => None
  }

  lemma OthersStay(s: State, e: Event, r: nat)
    requires Enabled(s, e) && Actor(e) != Some(r)
    ensures At(Step(s, e), r) == At(s, r)
  {
  }

  lemma KickKept(s: State, e: Event)
    requires Inv(s) && Enabled(s, e)
    ensures OneKick(Step(s, e))
  {
    hide InOrder, AllCounted, Owned, NoLostWakeup, HeadHeld;
    var s' := Step(s, e);
    forall p: nat | At(s', p).MustKick?
      ensures At(s, p).MustKick? || (e == Queue(p, if e.Queue? then e.now else 0) && !s.sh.kickPending)
      ensures s'.sh.kickPending && s'.kicks == 0
    {
      if Actor(e) != Some(p) {
        OthersStay(s, e, p);
      }
    }
    forall p: nat, r: nat | At(s', p).MustKick? && At(s', r).MustKick?
      ensures p == r
    {
      if Actor(e) != Some(p) {
        OthersStay(s, e, p);
      }
      if Actor(e) != Some(r) {
        OthersStay(s, e, r);
      }
    }
    if s'.sh.kickPending && s'.kicks != 1 {
      if s.sh.kickPending {
        var p: nat :| At(s, p).MustKick?;
        if Actor(e) != Some(p) {
          OthersStay(s, e, p);
        }
        assert At(s', p).MustKick?;
      } else {
        assert At(s', e.p).MustKick?;
      }
    }
  }

  lemma WakeupKept(s: State, e: Event)
    requires Inv(s) && Enabled(s, e)
    ensures NoLostWakeup(Step(s, e)) && HeadHeld(Step(s, e))
  {
    hide InOrder, AllCounted, Owned, OneKick;
  }

  // Buffer b is where owner says.
  ghost predicate InPlace(s: State, b: nat) {
    b in s.owner &&
    match s.owner[b]
    case InQueue => exists i :: 0 <= i < |s.sh.q| && s.sh.q[i].buf == b
    case WithProducer(p) => HeldBy(At(s, p)) == Some(b)
    case WithConsumer => s.cons.Freeing? && s.cons.buf == b
  }

  ghost predicate QueueOwned(s: State) {
    && (forall i :: 0 <= i < |s.sh.q| ==> s.sh.q[i].buf in s.owner && s.owner[s.sh.q[i].buf] == InQueue)
    && (forall i, j :: 0 <= i < j < |s.sh.q| ==> s.sh.q[i].buf != s.sh.q[j].buf)
  }

  ghost predicate HoldersOwn(s: State) {
    && (forall p: nat :: HeldBy(At(s, p)).Some? ==> HolderOwns(s, p, HeldBy(At(s, p)).value))
    && (s.cons.Freeing? ==> s.cons.buf in s.owner && s.owner[s.cons.buf] == WithConsumer)
  }

  ghost predicate HolderOwns(s: State, p: nat, b: nat) {
    b in s.owner && s.owner[b] == WithProducer(p)
  }

  // The events that change the queue, or whose buffer another place has.
  lemma QueueStepOwned(s: State, e: Event)
    requires QueueOwned(s) && HoldersOwn(s) && Enabled(s, e) && e.Queue?
    ensures QueueOwned(Step(s, e))
  {
    assert HeldBy(At(s, e.p)).Some? ==> HolderOwns(s, e.p, HeldBy(At(s, e.p)).value);
  }

  lemma PopStepOwned(s: State, e: Event)
    requires QueueOwned(s) && Enabled(s, e) && e.Pop?
    ensures QueueOwned(Step(s, e))
  {
  }

  lemma OtherStepOwned(s: State, e: Event)
    requires QueueOwned(s) && HoldersOwn(s) && Enabled(s, e) && !e.Queue? && !e.Pop?
    ensures QueueOwned(Step(s, e))
  {
    if e.FreeCopy? {
      assert HolderOwns(s, e.p, HeldBy(At(s, e.p)).value);
    }
    assert Step(s, e).sh.q == s.sh.q;
  }

  lemma QueueOwnedKept(s: State, e: Event)
    requires QueueOwned(s) && HoldersOwn(s) && Enabled(s, e)
    ensures QueueOwned(Step(s, e))
  {
    hide Step, QueueOwned, HoldersOwn;
    if e.Queue? {
      QueueStepOwned(s, e);
    } else if e.Pop? {
      PopStepOwned(s, e);
    } else {
      OtherStepOwned(s, e);
    }
  }

  lemma HoldersKept(s: State, e: Event)
    requires Inv(s) && Enabled(s, e)
    ensures HoldersOwn(Step(s, e))
  {
    hide InOrder, AllCounted, OneKick, NoLostWakeup, HeadHeld, InPlace;
    var s' := Step(s, e);
    forall p: nat | HeldBy(At(s', p)).Some?
      ensures HolderOwns(s', p, HeldBy(At(s', p)).value)
    {
      if Actor(e) != Some(p) {
        OthersStay(s, e, p);
        assert HolderOwns(s, p, HeldBy(At(s, p)).value);
        if Actor(e).Some? && HeldBy(At(s, Actor(e).value)).Some? {
          assert HolderOwns(s, Actor(e).value, HeldBy(At(s, Actor(e).value)).value);
        }
      }
    }
  }

  lemma PlacesKept(s: State, e: Event, b: nat)
    requires QueueOwned(s) && HoldersOwn(s) && Enabled(s, e) && b in Step(s, e).owner
    requires b in s.owner ==> InPlace(s, b)
    ensures InPlace(Step(s, e), b)
  {
    if b in s.owner {
      assert InPlace(s, b);
      match s.owner[b]
      case InQueue => QueuedStays(s, e, b);
      case WithProducer(p) =>
        if Actor(e) != Some(p) {
          OthersStay(s, e, p);
        }
      case WithConsumer =>
    }
    if e.Queue? && Step(s, e).sh.q != s.sh.q {
      assert Step(s, e).sh.q[|s.sh.q|].buf == At(s, e.p).copy.value;
    }
  }

  lemma QueuedStays(s: State, e: Event, b: nat)
    requires QueueOwned(s) && HoldersOwn(s) && Enabled(s, e)
    requires b in Step(s, e).owner && InPlace(s, b) && s.owner[b] == InQueue
    ensures Step(s, e).owner[b] == InQueue ==> exists i :: 0 <= i < |Step(s, e).sh.q| && Step(s, e).sh.q[i].buf == b
    ensures Step(s, e).owner[b] != InQueue ==> e.Pop? && b == s.sh.q[0].buf
  {
    var i :| 0 <= i < |s.sh.q| && s.sh.q[i].buf == b;
    var q' := Step(s, e).sh.q;
    if e.Pop? {
      assert i > 0 ==> q'[i - 1] == s.sh.q[i];
    } else {
      assert q'[i] == s.sh.q[i];
    }
    if e.Queue? || e.FreeCopy? {
      assert HeldBy(At(s, e.p)).Some? ==> HolderOwns(s, e.p, HeldBy(At(s, e.p)).value);
    }
  }

  lemma OwnedKept(s: State, e: Event)
    requires Inv(s) && Enabled(s, e)
    ensures Owned(Step(s, e))
  {
    QueueOwnedKept(s, e);
    HoldersKept(s, e);
    forall b: nat | b in Step(s, e).owner
      ensures InPlace(Step(s, e), b)
    {
      PlacesKept(s, e, b);
    }
    hide Step, Inv;
  }

  // ---- whole runs -------------------------------------------------------------------

  // Any interleaving of the tasks' steps.
  predicate Runs(s: State, es: seq<Event>)
    decreases |es|
  {
    es == [] || (Enabled(s, es[0]) && Runs(Step(s, es[0]), es[1..]))
  }

  function After(s: State, es: seq<Event>): State
    requires Runs(s, es)
    decreases |es|
  {
    if es == [] then s else After(Step(s, es[0]), es[1..])
  }

  lemma {:induction false} InvKept(s: State, es: seq<Event>)
    requires Inv(s) && Runs(s, es)
    ensures Inv(After(s, es))
    decreases |es|
  {
    if es != [] {
      OrderKept(s, es[0]);
      CountKept(s, es[0]);
      KickKept(s, es[0]);
      WakeupKept(s, es[0]);
      OwnedKept(s, es[0]);
      hide Step, Enabled, InOrder, AllCounted, OneKick, NoLostWakeup, HeadHeld, Owned;
      InvKept(Step(s, es[0]), es[1..]);
    }
  }

  // Every run: the order kept, no call uncounted, at most one kick, no wakeup lost, every
  // buffer in one place.
  lemma EveryRun(es: seq<Event>)
    requires Runs(START, es)
    ensures Inv(After(START, es))
  {
    StartInv();
    InvKept(START, es);
  }

  // A frame handed to the class, or dropped, is the oldest waiting, in a buffer still live.
  lemma HeadIsLive(es: seq<Event>)
    requires Runs(START, es)
    ensures
      var s := After(START, es);
      s.cons.Holding? || s.cons.Popping? ==>
        |s.left| <= |s.accepted| && s.accepted[|s.left|..] == s.sh.q && s.sh.q != [] && s.cons.f == s.sh.q[0]
        && s.cons.f.buf in s.owner && s.owner[s.cons.f.buf] == InQueue
  {
    EveryRun(es);
    hide OneKick, NoLostWakeup, AllCounted, After, Runs;
    var s := After(START, es);
    assert s.accepted[|s.left|..] == s.sh.q;
  }

  // A buffer about to be freed is live and nobody else's: it is freed exactly once.
  lemma FreedOnce(es: seq<Event>, p: nat)
    requires Runs(START, es)
    ensures
      var s := After(START, es);
      (At(s, p).MustFree? ==> At(s, p).buf in s.owner && s.owner[At(s, p).buf] == WithProducer(p))
      && (s.cons.Freeing? ==> s.cons.buf in s.owner && s.owner[s.cons.buf] == WithConsumer)
  {
    EveryRun(es);
    hide OneKick, NoLostWakeup, AllCounted, InOrder, After, Runs;
    var s := After(START, es);
    assert HeldBy(At(s, p)).Some? ==> HolderOwns(s, p, HeldBy(At(s, p)).value);
  }

  // When every task rests and the queue is empty, no buffer is left behind.
  lemma NothingLeaks(es: seq<Event>)
    requires Runs(START, es)
    requires
      var s := After(START, es);
      s.cons.Resting? && s.sh.q == [] && forall p: nat :: At(s, p).Idle?
    ensures After(START, es).owner == map[]
  {
    EveryRun(es);
    hide OneKick, NoLostWakeup, AllCounted, InOrder, After, Runs;
    var s := After(START, es);
    forall b
      ensures b !in s.owner
    {
      assert b in s.owner ==> InPlace(s, b);
      assert b in s.owner && s.owner[b].WithProducer? ==> At(s, s.owner[b].p).Idle?;
    }
  }

  // Frames waiting for a resting consumer that has not met a full class: a kick is queued, or
  // the one task that must post it can.
  lemma WakeupComes(es: seq<Event>)
    requires Runs(START, es)
    ensures
      var s := After(START, es);
      s.cons.Resting? && s.sh.q != [] && !s.stopped ==>
        Enabled(s, Kicked) || exists p: nat :: Enabled(s, Kick(p))
  {
    EveryRun(es);
    hide AllCounted, InOrder, Owned, After, Runs;
    var s := After(START, es);
    if s.cons.Resting? && s.sh.q != [] && !s.stopped && s.kicks == 0 {
      var p: nat :| At(s, p).MustKick?;
      assert Enabled(s, Kick(p));
    }
  }

  // ---- what becomes of a call, and of a frame -------------------------------------------

  // What a task between its two regions says of its frame.
  ghost predicate Honest(s: State) {
    && (forall p: nat :: At(s, p).Checked? ==>
          At(s, p).bad == !(1 <= At(s, p).len <= 1514) && (At(s, p).down ==> !At(s, p).bad))
    && (forall p: nat :: At(s, p).Copied? ==>
          At(s, p).bad == !(1 <= At(s, p).len <= 1514) && (At(s, p).down ==> !At(s, p).bad)
          && (At(s, p).copy.Some? ==> !At(s, p).bad && !At(s, p).down))
  }

  lemma HonestKept(s: State, e: Event)
    requires Honest(s) && Enabled(s, e)
    ensures Honest(Step(s, e))
  {
    var s' := Step(s, e);
    forall p: nat | At(s', p).Checked? || At(s', p).Copied?
      ensures At(s', p).bad == !(1 <= At(s', p).len <= 1514) && (At(s', p).down ==> !At(s', p).bad)
      ensures At(s', p).Copied? && At(s', p).copy.Some? ==> !At(s', p).bad && !At(s', p).down
    {
      if Actor(e) != Some(p) {
        OthersStay(s, e, p);
      }
    }
  }

  // The start of a call: a good frame over a link that is up is dropped at once for a full queue,
  // before any copy; a copy is made of no other than a good frame over such a link.
  lemma CallBegins(s: State, p: nat, len: nat, ready: bool, got: Option<nat>)
    requires Enabled(s, Check(p, len, ready))
    ensures
      var s' := Step(s, Check(p, len, ready));
      var full := 1 <= len <= 1514 && ready && |s.sh.q| == 16;
      && s'.sh == s.sh.(dropFull := s.sh.dropFull + Bit(full)) && s'.calls == s.calls + Bit(full)
      && At(s', p) == (if full then Idle else Checked(len, !(1 <= len <= 1514), 1 <= len <= 1514 && !ready))
      && (!full && Enabled(s', Copy(p, got)) ==>
            At(Step(s', Copy(p, got)), p) == Copied(len, !(1 <= len <= 1514), 1 <= len <= 1514 && !ready,
                                                   if 1 <= len <= 1514 && ready then got else None))
  {
  }

  // The end of a call, whatever ran between its regions: the frame is queued at the end if there
  // was a copy and a place, and otherwise only the counter of the cause moves.
  lemma CallEnds(s: State, p: nat, now: u32)
    requires Honest(s) && InOrder(s) && Enabled(s, Queue(p, now))
    ensures
      var c, s' := At(s, p), Step(s, Queue(p, now));
      if c.copy.Some? && |s.sh.q| < 16 then
        && s'.accepted == s.accepted + [Frame(c.copy.value, c.len, now)]
        && s'.sh.q == s.sh.q + [Frame(c.copy.value, c.len, now)] && 1 <= c.len <= 1514
        && At(s', p) == if s.sh.kickPending then Idle else MustKick
      else
        && s'.accepted == s.accepted && s'.sh.q == s.sh.q
        && s'.sh.dropBad == s.sh.dropBad + Bit(!(1 <= c.len <= 1514))
        && s'.sh.dropNolink == s.sh.dropNolink + Bit(c.down)
        && s'.sh.dropNomem == s.sh.dropNomem + Bit(1 <= c.len <= 1514 && !c.down && c.copy.None?)
        && s'.sh.dropFull == s.sh.dropFull + Bit(c.copy.Some?)
        && At(s', p) == if c.copy.Some? then MustFree(c.copy.value) else Idle
  {
  }

  // The last step of the TinyUSB task.
  function LastOwn(es: seq<Event>): Option<Event> {
    if es == [] then None
    else if Actor(es[|es| - 1]).None? then Some(es[|es| - 1])
    else LastOwn(es[..|es| - 1])
  }

  // And what its last pump began with.
  function LastStart(es: seq<Event>): Option<Event> {
    if es == [] then None
    else if Starts(es[|es| - 1]) then Some(es[|es| - 1])
    else LastStart(es[..|es| - 1])
  }

  predicate Starts(e: Event) {
    e.Kicked? || e.XferDone? || e.Flush?
  }

  // Where its last steps left it: it drops without asking in a flush only, and rests on a class
  // without room exactly if it just met one.
  ghost predicate AsJudged(s: State, last: Option<Event>, start: Option<Event>) {
    match s.cons
    case Resting => s.stopped <==> last == Some(Judge(true, false))
    case Looking(flush) => flush == (start == Some(Flush)) && !s.stopped
    case Holding(_) => last == Some(Look) && start != Some(Flush) && !s.stopped
    case Popping(_, taken, flush) =>
      && flush == (start == Some(Flush)) && last.Some? && !s.stopped
      && if flush then last.value.Look? && !taken
         else last.value.Judge? && last.value.ready == taken && (taken ==> last.value.canXmit)
    case Freeing(_, flush) => flush == (start == Some(Flush)) && last == Some(Pop) && !s.stopped
  }

  lemma JudgedKept(s: State, e: Event, last: Option<Event>, start: Option<Event>)
    requires AsJudged(s, last, start) && Enabled(s, e)
    ensures AsJudged(Step(s, e), if Actor(e).None? then Some(e) else last, if Starts(e) then Some(e) else start)
  {
  }

  lemma AfterLast(s: State, es: seq<Event>)
    requires es != [] && Runs(s, es)
    ensures
      var n := |es| - 1;
      Runs(s, es[..n]) && Enabled(After(s, es[..n]), es[n]) && After(s, es) == Step(After(s, es[..n]), es[n])
    decreases |es|
  {
    var n := |es| - 1;
    if n > 0 {
      AfterLast(Step(s, es[0]), es[1..]);
      assert es[1..][..n - 1] == es[..n][1..];
    }
    hide Step, Enabled;
  }

  lemma {:induction false} RunIsJudged(es: seq<Event>)
    requires Runs(START, es)
    ensures AsJudged(After(START, es), LastOwn(es), LastStart(es)) && Honest(After(START, es))
    decreases |es|
  {
    if es != [] {
      var n := |es| - 1;
      AfterLast(START, es);
      RunIsJudged(es[..n]);
      hide Runs, After, Step, Enabled, AsJudged, Honest;
      JudgedKept(After(START, es[..n]), es[n], LastOwn(es[..n]), LastStart(es[..n]));
      HonestKept(After(START, es[..n]), es[n]);
    }
  }

  // Whatever the other tasks do meanwhile, the frame that leaves is the oldest waiting, and it
  // goes into the class exactly if the class was just found ready with room for it; one is
  // dropped only by a class that was not ready or by a flush.
  lemma LeavesAsJudged(es: seq<Event>)
    requires Runs(START, es) && Enabled(After(START, es), Pop)
    ensures
      var s, last := After(START, es), LastOwn(es);
      && |s.left| < |s.accepted| && last.Some?
      && Step(s, Pop).left == s.left + [(s.accepted[|s.left|], last.value == Judge(true, true))]
      && (last.value == Judge(true, true) || (last.value.Judge? && !last.value.ready)
          || (last.value.Look? && LastStart(es) == Some(Flush)))
      && (LastStart(es) == Some(Flush) ==> last.value.Look?)
  {
    RunIsJudged(es);
    HeadIsLive(es);
    var s := After(START, es);
    hide After, Runs;
    assert s.accepted[|s.left|] == s.accepted[|s.left|..][0];
  }

  // A resting task met a class without room last exactly if it counts as stopped; so with frames
  // waiting and no such class the wakeup comes (WakeupComes).
  lemma RestsAsJudged(es: seq<Event>)
    requires Runs(START, es) && After(START, es).cons.Resting?
    ensures After(START, es).stopped <==> LastOwn(es) == Some(Judge(true, false))
  {
    RunIsJudged(es);
  }

  // ---- the pump alone --------------------------------------------------------------------

  // What meets the head of the queue: a class that takes it, one that is not ready, a flush.
  datatype Met = Taken | Unready | Flushed

  function Round(m: Met): seq<Event> {
    match m
    case Taken => [Look, Judge(true, true), Pop, Free]
    case Unready => [Look, Judge(false, true), Pop, Free]
    case Flushed => [Look, Pop, Free]
  }

  function Rounds(m: Met, n: nat): seq<Event> {
    if n == 0 then [] else Round(m) + Rounds(m, n - 1)
  }

  function Gone(q: seq<Frame>, taken: bool): seq<(Frame, bool)> {
    seq(|q|, i requires 0 <= i < |q| => (q[i], taken))
  }

  lemma FirstOf(s: State, e: Event, es: seq<Event>)
    requires Enabled(s, e)
    ensures Runs(s, [e] + es) <==> Runs(Step(s, e), es)
    ensures Runs(s, [e] + es) ==> After(s, [e] + es) == After(Step(s, e), es)
  {
    assert ([e] + es)[0] == e && ([e] + es)[1..] == es;
    hide Step, Enabled;
  }

  // The state after one round, the queue's head gone.
  function Rounded(s: State, m: Met): State
    requires s.sh.q != [] && s.cons == Looking(m.Flushed?)
  {
    s.(sh := PopRegion(s.sh, m.Taken?), owner := s.owner[s.sh.q[0].buf := WithConsumer] - {s.sh.q[0].buf},
       left := s.left + [(s.sh.q[0], m.Taken?)])
  }

  lemma RoundIs(s: State, m: Met, es: seq<Event>)
    requires s.sh.q != [] && s.cons == Looking(m.Flushed?)
    ensures Runs(s, Round(m) + es) <==> Runs(Rounded(s, m), es)
    ensures Runs(s, Round(m) + es) ==> After(s, Round(m) + es) == After(Rounded(s, m), es)
  {
    var s1 := Step(s, Look);
    var s2 := if m.Flushed? then s1 else Step(s1, Judge(m.Taken?, true));
    var s3 := Step(s2, Pop);
    assert Enabled(s3, Free) && Step(s3, Free) == Rounded(s, m);
    hide Runs, After, Rounded;
    var tail := [Pop] + ([Free] + es);
    FirstOf(s3, Free, es);
    FirstOf(s2, Pop, [Free] + es);
    if m.Flushed? {
      assert Round(m) + es == [Look] + tail;
      FirstOf(s, Look, tail);
    } else {
      assert Round(m) + es == [Look] + ([Judge(m.Taken?, true)] + tail);
      FirstOf(s1, Judge(m.Taken?, true), tail);
      FirstOf(s, Look, [Judge(m.Taken?, true)] + tail);
    }
  }

  // Undisturbed, the pump goes through the queue in order: the class takes each frame as long as
  // it is ready with room, each is dropped while it is not ready or on a flush.
  lemma {:induction false} PumpTakes(s: State, m: Met, n: nat)
    requires n <= |s.sh.q| && s.cons == Looking(m.Flushed?)
    ensures Runs(s, Rounds(m, n))
    ensures
      var s' := After(s, Rounds(m, n));
      && s'.sh.q == s.sh.q[n..] && s'.left == s.left + Gone(s.sh.q[..n], m.Taken?) && s'.cons == s.cons
      && s'.sh.sent == s.sh.sent + (if m.Taken? then n else 0)
      && s'.sh.dropNolink == s.sh.dropNolink + (if m.Taken? then 0 else n)
      && s'.accepted == s.accepted && s'.kicks == s.kicks
    decreases n
  {
    if n == 0 {
      assert Gone(s.sh.q[..0], m.Taken?) == [];
    } else {
      RoundIs(s, m, Rounds(m, n - 1));
      PumpTakes(Rounded(s, m), m, n - 1);
      assert s.sh.q[1..][..n - 1] == s.sh.q[..n][1..] && s.sh.q[1..][n - 1..] == s.sh.q[n..];
      GoneFirst(s.left, s.sh.q[..n], m.Taken?);
      hide Runs, After, Round;
    }
  }

  lemma GoneFirst(left: seq<(Frame, bool)>, q: seq<Frame>, taken: bool)
    requires q != []
    ensures (left + [(q[0], taken)]) + Gone(q[1..], taken) == left + Gone(q, taken)
  {
  }

  // It stops at an empty queue, or at a class without room, whose next completion starts it
  // again; the frame that met it waits at the head.
  lemma PumpStops(s: State)
    requires s.cons == Looking(false)
    ensures s.sh.q == [] ==> Step(s, Look) == s.(cons := Resting)
    ensures
      s.sh.q != [] ==>
        && Enabled(Step(s, Look), Judge(true, false))
        && Step(Step(s, Look), Judge(true, false)) == s.(cons := Resting, stopped := true)
  {
  }

  // ---- the structure itself ----------------------------------------------------------

  // The ring from head on, n frames of it, is s.
  ghost predicate RingHolds(ring: seq<Frame>, head: nat, n: nat, s: seq<Frame>) {
    |ring| == TXQ_N && |s| == n && forall i :: 0 <= i < n ==> s[i] == ring[(head + i) % TXQ_N]
  }

  lemma RingLength(ring: seq<Frame>, head: nat, n: nat, s: seq<Frame>)
    requires RingHolds(ring, head, n, s)
    ensures |s| == n
  {
  }

  lemma RingPush(ring: seq<Frame>, head: nat, n: nat, s: seq<Frame>, f: Frame)
    requires RingHolds(ring, head, n, s) && head < TXQ_N && n < TXQ_N
    ensures RingHolds(ring[(head + n) % TXQ_N := f], head, n + 1, s + [f])
  {
    var ring' := ring[(head + n) % TXQ_N := f];
    forall i | 0 <= i < n
      ensures ring'[(head + i) % TXQ_N] == s[i]
    {
      assert (head + i) % TXQ_N != (head + n) % TXQ_N;
    }
  }

  lemma RingPop(ring: seq<Frame>, head: nat, n: nat, s: seq<Frame>)
    requires RingHolds(ring, head, n, s) && head < TXQ_N && 0 < n <= TXQ_N
    ensures s[0] == ring[head] && RingHolds(ring, (head + 1) % TXQ_N, n - 1, s[1..])
  {
    forall i | 0 <= i < n - 1
      ensures s[1..][i] == ring[((head + 1) % TXQ_N + i) % TXQ_N]
    {
      assert ((head + 1) % TXQ_N + i) % TXQ_N == (head + (i + 1)) % TXQ_N;
    }
  }

  class UsbNet {
    const q: array<Frame>
    var head: nat
    var n: nat
    var kickPending: bool
    var txQueued: u32
    var txSent: u32
    var dropFull: u32
    var dropNolink: u32
    var dropNomem: u32
    var dropBad: u32
    ghost var sh: Shared

    ghost predicate Valid()
      reads this, q
    {
      && q.Length == TXQ_N && head < TXQ_N && n <= TXQ_N
      && RingHolds(q[..], head, n, sh.q)
      && kickPending == sh.kickPending
      && txQueued == Wrap32(sh.queued) && txSent == Wrap32(sh.sent) && dropFull == Wrap32(sh.dropFull)
      && dropNolink == Wrap32(sh.dropNolink) && dropNomem == Wrap32(sh.dropNomem) && dropBad == Wrap32(sh.dropBad)
    }

    constructor ()
      ensures Valid() && sh == START.sh && fresh(q)
    {
      q := new Frame[TXQ_N](i => Frame(0, 0, 0));
      head, n, kickPending := 0, 0, false;
      txQueued, txSent, dropFull, dropNolink, dropNomem, dropBad := 0, 0, 0, 0, 0, 0;
      sh := START.sh;
    }

    // usbnet_tx, first region.
    method CheckFull(bad: bool, down: bool) returns (full: bool)
      requires Valid()
      modifies this
      ensures Valid() && full == FullFor(old(sh), bad, down) && sh == CheckRegion(old(sh), bad, down)
      ensures full <==> !bad && !down && |old(sh).q| == 16
      ensures sh == old(sh).(dropFull := old(sh).dropFull + Bit(full))
    {
      full := !bad && !down && n == TXQ_N;
      if full {
        WrapNext(sh.dropFull);
        dropFull := Wrap32(dropFull + 1);
        sh := sh.(dropFull := sh.dropFull + 1);
      }
    }

    // usbnet_tx, second region.
    method Enqueue(bad: bool, down: bool, copy: Option<Frame>) returns (o: Outcome)
      requires Valid()
      modifies this, q
      ensures Valid() && (sh, o) == QueueRegion(old(sh), bad, down, copy)
      // Queued if nothing is against it, at the end; else only the counter of the cause moves.
      ensures o.Queued? <==> !bad && !down && copy.Some? && |old(sh).q| < 16
      ensures o.Queued? ==>
        && sh == old(sh).(q := old(sh).q + [copy.value], queued := old(sh).queued + 1, kickPending := true)
        && o.kick == !old(sh).kickPending
      ensures o.Dropped? ==>
        sh == old(sh).(dropBad := old(sh).dropBad + Bit(bad), dropNolink := old(sh).dropNolink + Bit(!bad && down),
                       dropNomem := old(sh).dropNomem + Bit(!bad && !down && copy.None?),
                       dropFull := old(sh).dropFull + Bit(!bad && !down && copy.Some?))
    {
      o := Dropped;
      hide Wrap32, RingHolds;
      assert |sh.q| == n by {
        RingLength(q[..], head, n, sh.q);
      }
      if bad {
        WrapNext(sh.dropBad);
        dropBad := Wrap32(dropBad + 1);
        sh := sh.(dropBad := sh.dropBad + 1);
      } else if down {
        WrapNext(sh.dropNolink);
        dropNolink := Wrap32(dropNolink + 1);
        sh := sh.(dropNolink := sh.dropNolink + 1);
      } else if copy.None? {
        WrapNext(sh.dropNomem);
        dropNomem := Wrap32(dropNomem + 1);
        sh := sh.(dropNomem := sh.dropNomem + 1);
      } else if n == TXQ_N {
        WrapNext(sh.dropFull);
        dropFull := Wrap32(dropFull + 1);
        sh := sh.(dropFull := sh.dropFull + 1);
      } else {
        WrapNext(sh.queued);
        RingPush(q[..], head, n, sh.q, copy.value);
        ghost var ring := q[..];
        q[(head + n) % TXQ_N] := copy.value;
        assert q[..] == ring[(head + n) % TXQ_N := copy.value];
        n := n + 1;
        txQueued := Wrap32(txQueued + 1);
        o := Queued(!kickPending);
        kickPending := true;
        sh := sh.(q := sh.q + [copy.value], queued := sh.queued + 1, kickPending := true);
      }
    }

    // pump_ and usbnet_flush: the head, left in place.
    method Peek() returns (f: Option<Frame>)
      requires Valid()
      ensures f == if sh.q == [] then None else Some(sh.q[0])
    {
      f := if n > 0 then Some(q[head]) else None;
    }

    // pop_: the head's buffer, to be freed.
    method PopHead(taken: bool) returns (buf: nat)
      requires Valid() && sh.q != []
      modifies this
      ensures Valid() && sh == PopRegion(old(sh), taken) && buf == old(sh.q[0].buf)
    {
      RingLength(q[..], head, n, sh.q);
      RingPop(q[..], head, n, sh.q);
      hide Wrap32, RingHolds;
      buf := q[head].buf;
      head := (head + 1) % TXQ_N;
      n := n - 1;
      WrapNext(sh.sent);
      WrapNext(sh.dropNolink);
      if taken {
        txSent := Wrap32(txSent + 1);
        sh := sh.(q := sh.q[1..], sent := sh.sent + 1);
      } else {
        dropNolink := Wrap32(dropNolink + 1);
        sh := sh.(q := sh.q[1..], dropNolink := sh.dropNolink + 1);
      }
    }

    // usbnet_kicked's region.
    method TakeKick()
      requires Valid()
      modifies `kickPending, `sh
      ensures Valid() && sh == old(sh).(kickPending := false)
    {
      kickPending := false;
      sh := sh.(kickPending := false);
    }
  }
}
