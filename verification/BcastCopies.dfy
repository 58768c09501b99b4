// Paced broadcast copies (main/bat/bat_bcast.c, bat_grp_held of bat_core.c): with
// 2 or 3 copies every broadcast waits in one of four slots and its copies leave one
// at a time, each 5 ms after the last group frame. The slots pick by "most copies
// left" and "oldest"; Schedule shows that this is a queue of the last broadcasts.
module BcastCopies {
  import opened Counting
  import opened Words

  const SLOTS: int := 4
  const SPACING_MS: int := 5

  type Frame = seq<u8>

  // A waiting broadcast: its arrival number, counted without wrapping.
  datatype Entry = Entry(num: nat, frame: Frame, left: nat)

  // The waiting broadcasts in arrival order; how many arrived, how many of them had
  // their first copy handed over, and the copies handed over and given up so far.
  datatype Schedule = Schedule(q: seq<Entry>, arrived: nat, firsts: nat, handed: nat, dropped: nat) {
    ghost predicate Valid(copies: nat) {
      Ordered(copies) && Conserves(copies)
    }

    // Every copy of every broadcast taken is handed over, waiting or given up.
    ghost predicate Conserves(copies: nat) {
      Repeated(arrived, copies) == handed + TotalLeft(q) + dropped
    }

    ghost predicate Ordered(copies: nat) {
      && |q| <= SLOTS
      && (forall k :: 0 <= k < |q| ==> q[k].num == arrived - |q| + k && 1 <= q[k].left <= copies)
      // An older broadcast never has more copies left than a younger one.
      && (forall j, k :: 0 <= j < k < |q| ==> q[j].left <= q[k].left)
      // First copies have left in arrival order: exactly those of numbers below firsts.
      && arrived - |q| <= firsts <= arrived
      && (forall k :: 0 <= k < |q| ==> (q[k].left == copies <==> q[k].num >= firsts))
    }

    // The broadcast with the most copies left, the oldest of several.
    ghost predicate Next(k: nat) {
      && k < |q|
      && (forall j :: 0 <= j < |q| ==> q[j].left <= q[k].left)
      && (forall j :: 0 <= j < k ==> q[j].left < q[k].left)
    }

    function Send(k: nat, copies: nat): Schedule
      requires k < |q| && q[k].left >= 1
    {
      var q' := if q[k].left == 1 then q[..k] + q[k + 1..] else q[k := q[k].(left := q[k].left - 1)];
      this.(q := q', handed := handed + 1, firsts := if q[k].left == copies then firsts + 1 else firsts)
    }

    // A full queue gives up its head's remaining copies, if the head was sent at all.
    predicate Refuses(copies: nat) {
      |q| >= SLOTS && q[0].left >= copies
    }

    function Reclaim(): Schedule
      requires q != []
    {
      this.(q := q[1..], dropped := dropped + q[0].left)
    }

    function Push(frame: Frame, copies: nat): Schedule {
      this.(q := q + [Entry(arrived, frame, copies)], arrived := arrived + 1)
    }

    function Arrive(frame: Frame, copies: nat): Schedule
      requires !Refuses(copies)
    {
      (if |q| < SLOTS then this else Reclaim()).Push(frame, copies)
    }
  }

  // n times copies, added up.
  function Repeated(n: nat, copies: nat): nat {
    if n == 0 then 0 else Repeated(n - 1, copies) + copies
  }

  lemma {:induction false} RepeatedIsProduct(n: nat, copies: nat)
    ensures Repeated(n, copies) == n * copies
  {
    if n > 0 {
      RepeatedIsProduct(n - 1, copies);
      assert n * copies == (n - 1) * copies + copies;
    }
  }

  function TotalLeft(q: seq<Entry>): nat {
    if q == [] then 0 else q[0].left + TotalLeft(q[1..])
  }

  lemma {:induction false} TotalLeftAppend(a: seq<Entry>, b: seq<Entry>)
    ensures TotalLeft(a + b) == TotalLeft(a) + TotalLeft(b)
  {
    if a == [] {
      assert a + b == b;
    } else {
      assert (a + b)[1..] == a[1..] + b;
      TotalLeftAppend(a[1..], b);
    }
  }

  lemma TotalLeftAt(q: seq<Entry>, k: nat)
    requires k < |q|
    ensures TotalLeft(q) == TotalLeft(q[..k]) + q[k].left + TotalLeft(q[k + 1..])
  {
    assert q == q[..k] + q[k..];
    TotalLeftAppend(q[..k], q[k..]);
  }

  // Only the head can run out: the copies of the queue are given out in whole rounds.
  lemma LastCopyIsHeads(s: Schedule, copies: nat, k: nat)
    requires s.Ordered(copies) && s.Next(k) && s.q[k].left == 1
    ensures k == 0
  {
    assert s.q[0].left >= 1;
  }

  // The first copy given out next is that of the oldest broadcast without one.
  lemma FirstCopiesInOrder(s: Schedule, copies: nat, k: nat)
    requires s.Ordered(copies) && s.Next(k) && s.q[k].left == copies
    ensures s.q[k].num == s.firsts
  {
    if k > 0 {
      assert s.q[k - 1].left < s.q[k].left;
    }
  }

  lemma SendKeepsOrder(s: Schedule, copies: nat, k: nat)
    requires 2 <= copies && s.Ordered(copies) && s.Next(k)
    ensures s.Send(k, copies).Ordered(copies)
  {
    var q' := s.Send(k, copies).q;
    if s.q[k].left == 1 {
      LastCopyIsHeads(s, copies, k);
      assert q' == s.q[1..];
      forall i | 0 <= i < |q'|
        ensures q'[i] == s.q[i + 1] && q'[i].left == 1
      {
        assert s.q[i + 1].left <= s.q[k].left;
      }
    } else {
      var firsts' := s.Send(k, copies).firsts;
      if s.q[k].left == copies {
        FirstCopiesInOrder(s, copies, k);
      }
      forall i, j | 0 <= i < j < |q'|
        ensures q'[i].left <= q'[j].left
      {
        assert s.q[i].left <= s.q[j].left <= s.q[k].left;
      }
    }
  }

  lemma SendConserves(s: Schedule, copies: nat, k: nat)
    requires k < |s.q| && s.q[k].left >= 1 && s.Conserves(copies)
    ensures s.Send(k, copies).Conserves(copies)
  {
    var q' := s.Send(k, copies).q;
    TotalLeftAt(s.q, k);
    if s.q[k].left == 1 {
      TotalLeftAppend(s.q[..k], s.q[k + 1..]);
    } else {
      TotalLeftAt(q', k);
      assert q'[..k] == s.q[..k] && q'[k + 1..] == s.q[k + 1..];
    }
  }

  lemma ArriveKeepsOrder(s: Schedule, copies: nat, frame: Frame)
    requires 2 <= copies && s.Ordered(copies) && !s.Refuses(copies)
    ensures s.Arrive(frame, copies).Ordered(copies)
  {
  }

  lemma ArriveConserves(s: Schedule, copies: nat, frame: Frame)
    requires s.Conserves(copies) && !s.Refuses(copies)
    ensures s.Arrive(frame, copies).Conserves(copies)
  {
    var rest := if |s.q| < SLOTS then s.q else s.q[1..];
    TotalLeftAppend(rest, [Entry(s.arrived, frame, copies)]);
  }

  // A broadcast whose remaining copies are given up has been sent at least once.
  lemma ReclaimedWasSent(s: Schedule, copies: nat)
    requires s.Ordered(copies) && |s.q| == SLOTS && !s.Refuses(copies)
    ensures s.q[0].num < s.firsts
  {
    assert s.q[0].left < copies;
  }

  // A refused broadcast finds four others of which no copy has left yet.
  lemma RefusalMeansAllUnsent(s: Schedule, copies: nat)
    requires s.Ordered(copies) && s.Refuses(copies)
    ensures s.firsts == s.arrived - SLOTS
    ensures forall k :: 0 <= k < SLOTS ==> s.q[k].left == copies
  {
    assert s.q[0].left == copies;
    assert s.q[0].num >= s.firsts;
  }

  // ---- the slots --------------------------------------------------------------

  datatype Slot = Slot(frame: Frame, left: nat, ord: u32)

  function Older(x: Slot, y: Slot): bool {
    SDiff(x.ord, y.ord) < 0
  }

  // Slot order[k] holds the k-th broadcast of the queue; every other slot is free.
  ghost predicate Holds(slots: seq<Slot>, order: seq<nat>, s: Schedule) {
    && |slots| == SLOTS && |order| == |s.q|
    && (forall k :: 0 <= k < |order| ==> HoldsAt(slots, order[k], s.q[k]))
    && Distinct(order)
    && (forall i :: 0 <= i < SLOTS && slots[i].left > 0 ==> i in order)
  }

  ghost predicate HoldsAt(slots: seq<Slot>, i: nat, e: Entry) {
    i < |slots| && slots[i] == Slot(e.frame, e.left, Wrap32(e.num))
  }

  // The order counter may wrap: the waiting broadcasts are never more than four apart.
  lemma OlderIsEarlier(slots: seq<Slot>, order: seq<nat>, s: Schedule, copies: nat, j: nat, k: nat)
    requires Holds(slots, order, s) && s.Ordered(copies) && j < |order| && k < |order|
    ensures Older(slots[order[j]], slots[order[k]]) <==> j < k
  {
    SDiffExact(s.q[j].num, s.q[k].num);
  }

  lemma FullMeansNoFreeSlot(slots: seq<Slot>, order: seq<nat>, s: Schedule, copies: nat)
    requires Holds(slots, order, s) && s.Ordered(copies)
    ensures |s.q| == SLOTS <==> forall i :: 0 <= i < SLOTS ==> slots[i].left > 0
  {
    Pigeonhole(order, SLOTS);
    forall i | i in order
      ensures slots[i].left > 0
    {
      var k :| 0 <= k < |order| && order[k] == i;
      assert HoldsAt(slots, order[k], s.q[k]);
    }
  }

  predicate Better(slots: seq<Slot>, i: nat, n: int)
    requires i < |slots| && -1 <= n < |slots|
  {
    slots[i].left > 0
    && (n == -1 || slots[i].left > slots[n].left || (slots[i].left == slots[n].left && Older(slots[i], slots[n])))
  }

  // n is the slot of the next copy among the first i slots: the one at place k of the queue.
  ghost predicate NextSeen(order: seq<nat>, s: Schedule, i: nat, n: int, k: nat)
    requires |order| == |s.q|
  {
    if n == -1 then forall j :: 0 <= j < |order| ==> order[j] >= i
    else
      && k < |order| && order[k] == n < i
      && (forall j :: 0 <= j < |order| && order[j] < i ==>
            s.q[j].left < s.q[k].left || (s.q[j].left == s.q[k].left && k <= j))
  }

  lemma NextScan(slots: seq<Slot>, order: seq<nat>, s: Schedule, copies: nat, i: nat, n: int, k: nat)
    returns (k': nat)
    requires Holds(slots, order, s) && s.Ordered(copies)
    requires i < SLOTS && -1 <= n < SLOTS && NextSeen(order, s, i, n, k)
    ensures NextSeen(order, s, i + 1, if Better(slots, i, n) then i else n, k')
  {
    k' := k;
    if slots[i].left > 0 {
      var p :| 0 <= p < |order| && order[p] == i;
      assert HoldsAt(slots, order[p], s.q[p]);
      if n != -1 {
        assert HoldsAt(slots, order[k], s.q[k]);
        OlderIsEarlier(slots, order, s, copies, p, k);
      }
      k' := if Better(slots, i, n) then p else k;
    } else {
      NotQueued(slots, order, s, copies, i);
    }
  }

  lemma NotQueued(slots: seq<Slot>, order: seq<nat>, s: Schedule, copies: nat, i: nat)
    requires Holds(slots, order, s) && s.Ordered(copies) && i < SLOTS && slots[i].left == 0
    ensures i !in order
  {
    forall k | 0 <= k < |order|
      ensures order[k] != i
    {
      assert HoldsAt(slots, order[k], s.q[k]);
    }
  }

  lemma NextFound(order: seq<nat>, s: Schedule, n: int, k: nat)
    requires |order| == |s.q| && (forall j :: 0 <= j < |order| ==> order[j] < SLOTS) && Distinct(order)
    requires NextSeen(order, s, SLOTS, n, k)
    ensures if n == -1 then s.q == [] else s.Next(k)
  {
    assert order != [] ==> order[0] < SLOTS;
  }

  predicate Worse(slots: seq<Slot>, i: nat, v: int, copies: nat)
    requires i < |slots| && -1 <= v < |slots|
  {
    slots[i].left < copies
    && (v == -1 || slots[i].left < slots[v].left || (slots[i].left == slots[v].left && Older(slots[i], slots[v])))
  }

  // v is the earliest broadcast among the first i slots of which a copy was sent.
  ghost predicate VictimSeen(order: seq<nat>, s: Schedule, copies: nat, i: nat, v: int, k: nat)
    requires |order| == |s.q|
  {
    if v == -1 then forall j :: 0 <= j < |order| && order[j] < i ==> s.q[j].left >= copies
    else
      && k < |order| && order[k] == v < i && s.q[k].left < copies
      && (forall j :: 0 <= j < |order| && order[j] < i ==> k <= j)
  }

  lemma NothingSeen(order: seq<nat>, s: Schedule, copies: nat)
    requires |order| == |s.q|
    ensures VictimSeen(order, s, copies, 0, -1, 0)
  {
  }

  lemma VictimScan(slots: seq<Slot>, order: seq<nat>, s: Schedule, copies: nat, i: nat, v: int, k: nat)
    returns (k': nat)
    requires Holds(slots, order, s) && s.Ordered(copies)
    requires i < SLOTS && -1 <= v < SLOTS && VictimSeen(order, s, copies, i, v, k)
    requires slots[i].left > 0
    ensures VictimSeen(order, s, copies, i + 1, if Worse(slots, i, v, copies) then i else v, k')
  {
    var p :| 0 <= p < |order| && order[p] == i;
    assert HoldsAt(slots, order[p], s.q[p]);
    if v != -1 {
      assert HoldsAt(slots, order[k], s.q[k]);
      OlderIsEarlier(slots, order, s, copies, p, k);
    }
    k' := if Worse(slots, i, v, copies) then p else k;
  }

  // With every slot taken, the slot given up is the head's, or the broadcast is refused.
  lemma VictimIsHead(slots: seq<Slot>, order: seq<nat>, s: Schedule, copies: nat, v: int, k: nat)
    requires Holds(slots, order, s) && s.Ordered(copies) && |s.q| == SLOTS
    requires VictimSeen(order, s, copies, SLOTS, v, k)
    ensures if v == -1 then s.Refuses(copies) else !s.Refuses(copies) && order[0] == v
  {
    assert HoldsAt(slots, order[0], s.q[0]);
  }

  lemma TakeCopy(slots: seq<Slot>, order: seq<nat>, s: Schedule, copies: nat, k: nat) returns (order': seq<nat>)
    requires 2 <= copies && Holds(slots, order, s) && s.Ordered(copies) && s.Next(k)
    ensures Holds(slots[order[k] := slots[order[k]].(left := s.q[k].left - 1)], order', s.Send(k, copies))
  {
    var slots' := slots[order[k] := slots[order[k]].(left := s.q[k].left - 1)];
    if s.q[k].left == 1 {
      LastCopyIsHeads(s, copies, k);
      order' := order[1..];
      HeadFreed(slots', order, s);
    } else {
      order' := order;
    }
  }

  lemma HeadFreed(slots: seq<Slot>, order: seq<nat>, s: Schedule)
    requires |slots| == SLOTS && |order| == |s.q| > 0 && Distinct(order)
    requires order[0] < SLOTS && slots[order[0]].left == 0
    requires forall k :: 1 <= k < |order| ==> HoldsAt(slots, order[k], s.q[k])
    requires forall i :: 0 <= i < SLOTS && slots[i].left > 0 ==> i in order
    ensures forall h: nat, d: nat :: Holds(slots, order[1..], s.(q := s.q[1..], handed := h, dropped := d))
  {
    forall i | 0 <= i < SLOTS && slots[i].left > 0
      ensures i in order[1..]
    {
      var k :| 0 <= k < |order| && order[k] == i;
      assert order[1..][k - 1] == i;
    }
  }

  lemma FillSlot(slots: seq<Slot>, order: seq<nat>, s: Schedule, copies: nat, v: nat, frame: Frame)
    requires Holds(slots, order, s) && s.Ordered(copies)
    requires v < SLOTS && slots[v].left == 0
    ensures Holds(slots[v := Slot(frame, copies, Wrap32(s.arrived))], order + [v], s.Push(frame, copies))
  {
    forall k | 0 <= k < |order|
      ensures order[k] != v
    {
      assert HoldsAt(slots, order[k], s.q[k]);
    }
    var slots' := slots[v := Slot(frame, copies, Wrap32(s.arrived))];
    forall i | 0 <= i < SLOTS && slots'[i].left > 0
      ensures i in order + [v]
    {
      if i == v {
        assert (order + [v])[|order|] == v;
      }
    }
  }

  lemma EnqueueStep(slots: seq<Slot>, order: seq<nat>, free: Schedule, copies: nat, v: nat, frame: Frame, s: Schedule)
    requires 2 <= copies && s.Valid(copies) && !s.Refuses(copies)
    requires Holds(slots, order, free) && free.Ordered(copies) && v < SLOTS && slots[v].left == 0
    requires free == if |s.q| < SLOTS then s else s.Reclaim()
    ensures Holds(slots[v := Slot(frame, copies, Wrap32(s.arrived))], order + [v], s.Arrive(frame, copies))
    ensures s.Arrive(frame, copies).Valid(copies) && s.Arrive(frame, copies).arrived == s.arrived + 1
  {
    FillSlot(slots, order, free, copies, v, frame);
    ArriveKeepsOrder(s, copies, frame);
    ArriveConserves(s, copies, frame);
  }

  class Pacer {
    const slots: array<Slot>
    const copies: nat
    var bcOrd: u32
    var grpTs: u32
    var grpSent: bool
    ghost var order: seq<nat>
    ghost var sched: Schedule
    ghost var lastGroup: int   // true time the link took the last group frame

    ghost predicate Valid()
      reads this, slots
    {
      && 2 <= copies <= 3
      && Holds(slots[..], order, sched)
      && sched.Valid(copies)
      && bcOrd == Wrap32(sched.arrived)
      && grpTs == Wrap32(lastGroup)
    }

    ghost predicate Spaced(t: int)
      reads this
    {
      grpSent ==> t - lastGroup >= SPACING_MS
    }

    constructor (n: nat)
      requires 2 <= n <= 3
      ensures Valid() && fresh(slots) && copies == n && sched == Schedule([], 0, 0, 0, 0) && !grpSent
    {
      slots := new Slot[SLOTS](i => Slot([], 0, 0));
      copies, bcOrd, grpTs, grpSent := n, 0, 0, false;
      order, sched, lastGroup := [], Schedule([], 0, 0, 0, 0), 0;
    }

    // Broadcasts taken, times copies: handed over, waiting or given up.
    lemma CopiesConserved()
      requires Valid()
      ensures sched.arrived * copies == sched.handed + TotalLeft(sched.q) + sched.dropped
    {
      RepeatedIsProduct(sched.arrived, copies);
    }

    // bat_grp_held, read at the time last sampled.
    predicate Held(now: u32)
      reads this
    {
      copies >= 2 && grpSent && Age(now, grpTs) < SPACING_MS
    }

    lemma NotHeldIsSpaced(now: u32, t: int)
      requires Valid() && now == Wrap32(t) && t >= lastGroup && !Held(now)
      ensures Spaced(t)
    {
      AgeExact(t, lastGroup);
    }

    // The hold is on exactly while under 5 ms of true time have passed, within a turn of the
    // clock; after that the clock's age decides.
    lemma HeldIs(now: u32, t: int)
      requires Valid() && now == Wrap32(t) && t >= lastGroup
      ensures Held(now) <==> grpSent && (t - lastGroup) % TWO32 < 5
      ensures t < lastGroup + TWO32 ==> (Held(now) <==> grpSent && t < lastGroup + 5)
    {
      assert Age(now, Wrap32(lastGroup)) == (t - lastGroup) % TWO32;
    }

    // The link's answer to a group frame: taken at a later time, or refused.
    method GroupSent(ok: bool, at: u32, ghost tAt: int)
      requires Valid() && at == Wrap32(tAt) && tAt >= lastGroup
      modifies this
      ensures Valid() && sched == old(sched) && order == old(order) && bcOrd == old(bcOrd)
      ensures if ok then grpSent && lastGroup == tAt else grpSent == old(grpSent) && lastGroup == old(lastGroup)
    {
      if ok {
        grpTs, grpSent, lastGroup := at, true, tAt;
      }
    }

    // The slot of the next copy to send, or -1 when none waits; k is its place in the queue.
    method NextCopy() returns (n: int, ghost k: nat)
      requires Valid()
      ensures -1 <= n < SLOTS
      ensures if n == -1 then sched.q == [] else sched.Next(k) && order[k] == n
    {
      n, k := -1, 0;
      for i := 0 to SLOTS
        invariant -1 <= n < SLOTS && NextSeen(order, sched, i, n, k)
      {
        k := NextScan(slots[..], order, sched, copies, i, n, k);
        if Better(slots[..], i, n) {
          n := i;
        }
      }
      NextFound(order, sched, n, k);
    }

    lemma HeadReclaimed(v: int, k: nat)
      requires Valid() && VictimSeen(order, sched, copies, SLOTS, v, k)
      requires forall j :: 0 <= j < SLOTS ==> slots[j].left > 0
      ensures if v == -1 then sched.Refuses(copies) else
        && !sched.Refuses(copies) && 0 <= v < SLOTS && |order| == |sched.q| == SLOTS
        && Holds(slots[..][v := slots[v].(left := 0)], order[1..], sched.Reclaim())
        && sched.Reclaim().Ordered(copies)
    {
      FullMeansNoFreeSlot(slots[..], order, sched, copies);
      VictimIsHead(slots[..], order, sched, copies, v, k);
      if v != -1 {
        HeadFreed(slots[..][v := slots[v].(left := 0)], order, sched);
      }
    }

    // The scan of slot_get: a free slot, or the earliest broadcast a copy of which was sent.
    method Victim() returns (free: int, v: int, ghost k: nat)
      requires Valid()
      ensures -1 <= free < SLOTS == slots.Length && -1 <= v < SLOTS
      ensures if free != -1 then slots[free].left == 0
              else VictimSeen(order, sched, copies, SLOTS, v, k) && forall j :: 0 <= j < SLOTS ==> slots[j].left > 0
    {
      assert slots.Length == SLOTS && |order| == |sched.q| && Holds(slots[..], order, sched) && sched.Ordered(copies);
      hide Holds, Schedule.Ordered, Schedule.Conserves, VictimSeen;
      free, v, k := -1, -1, 0;
      NothingSeen(order, sched, copies);
      for i := 0 to SLOTS
        invariant free == -1 && -1 <= v < SLOTS && VictimSeen(order, sched, copies, i, v, k)
        invariant forall j :: 0 <= j < i ==> slots[j].left > 0
      {
        if slots[i].left == 0 {
          free := i;
          return;
        }
        k := VictimScan(slots[..], order, sched, copies, i, v, k);
        if Worse(slots[..], i, v, copies) {
          v := i;
        }
      }
    }

    lemma FreeSlotMeansRoom(i: nat)
      requires Valid() && i < SLOTS == slots.Length && slots[i].left == 0
      ensures |sched.q| < SLOTS && !sched.Refuses(copies)
      ensures Holds(slots[..], order, sched) && sched.Ordered(copies)
    {
      FullMeansNoFreeSlot(slots[..], order, sched, copies);
    }

    // A free slot, else the head's, whose other copies are given up; -1 when no waiting
    // broadcast has been sent yet.
    method SlotGet() returns (v: int)
      requires Valid()
      modifies slots, `order, `sched
      ensures v == -1 <==> old(sched).Refuses(copies)
      ensures v == -1 ==> Valid() && sched == old(sched)
      ensures v != -1 ==>
        && 0 <= v < SLOTS == slots.Length && slots[v].left == 0
        && Holds(slots[..], order, sched) && sched.Ordered(copies)
        && sched == if |old(sched).q| < SLOTS then old(sched) else old(sched).Reclaim()
    {
      hide *;
      ghost var k;
      var free;
      free, v, k := Victim();
      if free != -1 {
        FreeSlotMeansRoom(free);
        return free;
      }
      HeadReclaimed(v, k);
      if v != -1 {
        ghost var was := slots[..];
        slots[v] := slots[v].(left := 0);
        assert slots[..] == was[v := slots[v]];
        order, sched := order[1..], sched.Reclaim();
      }
    }

    lemma SendStep(k: nat) returns (order': seq<nat>)
      requires Valid() && sched.Next(k)
      ensures k < |order| && order[k] < SLOTS == slots.Length && slots[order[k]].left >= 1
      ensures k < |sched.q| && sched.q[k].left >= 1
      ensures Holds(slots[..][order[k] := slots[order[k]].(left := slots[order[k]].left - 1)], order',
                    sched.Send(k, copies))
      ensures sched.Send(k, copies).Valid(copies) && sched.Send(k, copies).arrived == sched.arrived
    {
      assert HoldsAt(slots[..], order[k], sched.q[k]);
      order' := TakeCopy(slots[..], order, sched, copies, k);
      SendKeepsOrder(sched, copies, k);
      SendConserves(sched, copies, k);
    }

    // bat_link_tx of one copy: the link takes it at time tAt or refuses it, and either
    // way the copy is spent.
    method SendCopy(i: nat, ghost k: nat, ok: bool, at: u32, ghost tAt: int)
      requires Valid() && sched.Next(k) && order[k] == i
      requires at == Wrap32(tAt) && tAt >= lastGroup
      modifies this, slots
      ensures Valid() && sched == old(sched).Send(k, copies) && bcOrd == old(bcOrd)
      ensures if ok then grpSent && lastGroup == tAt else grpSent == old(grpSent) && lastGroup == old(lastGroup)
    {
      hide Schedule.Ordered, Schedule.Conserves, Schedule.Send, Schedule.Next, Holds;
      ghost var order' := SendStep(k);
      ghost var was := slots[..];
      slots[i] := slots[i].(left := slots[i].left - 1);
      assert slots[..] == was[i := slots[i]];
      order, sched := order', sched.Send(k, copies);
      if ok {
        grpTs, grpSent, lastGroup := at, true, tAt;
      }
    }

    // The broadcast takes the freed slot v.
    method Enqueue(v: nat, frame: Frame, ghost s: Schedule)
      requires 2 <= copies <= 3 && s.Valid(copies) && !s.Refuses(copies)
      requires v < SLOTS == slots.Length && slots[v].left == 0
      requires Holds(slots[..], order, sched) && sched.Ordered(copies)
      requires sched == if |s.q| < SLOTS then s else s.Reclaim()
      requires bcOrd == Wrap32(s.arrived) && grpTs == Wrap32(lastGroup)
      modifies slots, `order, `sched, `bcOrd
      ensures Valid() && sched == s.Arrive(frame, copies) && order == old(order) + [v]
    {
      EnqueueStep(slots[..], order, sched, copies, v, frame, s);
      WrapNext(s.arrived);
      hide Schedule.Valid, Schedule.Arrive, Schedule.Ordered, Schedule.Reclaim, Schedule.Refuses, Holds, Wrap32;
      ghost var was := slots[..];
      slots[v] := Slot(frame, copies, bcOrd);
      assert slots[..] == was[v := slots[v]];
      order, sched := order + [v], s.Arrive(frame, copies);
      bcOrd := Wrap32(bcOrd + 1);
    }

    // The broadcast waits in a slot, if the queue takes it.
    method Admit(frame: Frame) returns (v: int)
      requires Valid()
      modifies slots, `order, `sched, `bcOrd
      ensures Valid() && -1 <= v
      ensures v == -1 <==> old(sched).Refuses(copies)
      ensures v == -1 ==> sched == old(sched)
      ensures v != -1 ==> sched == old(sched).Arrive(frame, copies) && order != [] && order[|order| - 1] == v
    {
      ghost var s := sched;
      assert s.Valid(copies) && 2 <= copies <= 3 && bcOrd == Wrap32(s.arrived) && grpTs == Wrap32(lastGroup);
      hide *;
      v := SlotGet();
      if v != -1 {
        Enqueue(v, frame, s);
      }
    }

    // Alone in the queue, the new broadcast is the next.
    lemma AloneIsNext(frame: Frame, s: Schedule)
      requires Valid() && s.q == [] && sched == s.Arrive(frame, copies)
      ensures sched.Next(0) && |order| == 1
    {
    }

    // A broadcast to flood, at true time t. With nothing waiting and the spacing kept its
    // first copy goes at once.
    method Flood(frame: Frame, now: u32, ghost t: int, ok: bool, at: u32, ghost tAt: int) returns (taken: bool)
      requires Valid() && now == Wrap32(t) && t >= lastGroup && at == Wrap32(tAt) && tAt >= t
      modifies this, slots
      ensures Valid()
      ensures taken <==> !old(sched).Refuses(copies)
      ensures !taken ==> sched == old(sched)
      ensures taken ==>
        var queued := old(sched).Arrive(frame, copies);
        if old(sched).q == [] && !old(Held(now)) then sched == queued.Send(0, copies) && old(Spaced(t))
        else sched == queued
      ensures
        var gone := taken && old(sched).q == [] && !old(Held(now)) && ok;
        grpSent == (gone || old(grpSent)) && lastGroup == if gone then tAt else old(lastGroup)
    {
      ghost var s := sched;
      var held := Held(now);
      if !held {
        NotHeldIsSpaced(now, t);
      }
      hide *;
      var n, k := NextCopy();
      var v := Admit(frame);
      if v == -1 {
        return false;
      }
      if n == -1 && !held {
        AloneIsNext(frame, s);
        SendCopy(v, 0, ok, at, tAt);
      }
      taken := true;
    }

    // bat_bcast_copies, run by every tick at true time t: at most one copy goes.
    // waiting: a copy is left, and the next may go at due.
    method Tick(now: u32, ghost t: int, ok: bool, at: u32, ghost tAt: int) returns (waiting: bool, due: u32)
      requires Valid() && now == Wrap32(t) && t >= lastGroup && at == Wrap32(tAt) && tAt >= t
      modifies this, slots
      ensures Valid()
      ensures if old(sched).q == [] || old(Held(now)) then sched == old(sched)
              else old(Spaced(t)) && exists k :: old(sched).Next(k) && sched == old(sched).Send(k, copies)
      ensures
        var gone := old(sched).q != [] && !old(Held(now)) && ok;
        grpSent == (gone || old(grpSent)) && lastGroup == if gone then tAt else old(lastGroup)
      ensures waiting <==> sched.q != []
      ensures waiting ==> due == if grpSent then Wrap32(grpTs + SPACING_MS) else now
    {
      hide *;
      var n, k := NextCopy();
      if n != -1 && !Held(now) {
        NotHeldIsSpaced(now, t);
        SendCopy(n, k, ok, at, tAt);
        n, k := NextCopy();
      }
      waiting, due := n != -1, if grpSent then Wrap32(grpTs + SPACING_MS) else now;
    }
  }
}
