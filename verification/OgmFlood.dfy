// The OGM flood at one node and along a path (main/bat/bat_ogm.c): which numbers of an
// originator a node sends on, and what a record may claim after h nodes sent it on.
module OgmFlood {
  import opened Words
  import opened BcastWindow

  const TPUT_DEFAULT: int := 10
  const AGG_BUF: int := 1536

  datatype Option<T> = None | Some(value: T)

  // seqno, ttl and tput are rewritten on the way; the length counts header and TVLVs.
  datatype Record = Record(seqno: u32, ttl: u8, tput: u32, len: nat)

  datatype Config = Config(hardMtu: nat, hopPenalty: u8, halfDuplex: bool)

  datatype Update = Ignored | New | Same

  // ---- the path metric -------------------------------------------------------------------

  function IfaceTput(c: Config, p: u32): u32 {
    if c.halfDuplex && p > TPUT_DEFAULT then p / 2 else Penalised(p, c.hopPenalty)
  }

  function Penalised(p: u32, h: u8): (r: u32)
    ensures r <= p
    ensures h > 0 && p > 0 ==> r < p
  {
    PenaltyLowers(p, h);
    p * (255 - h) / 255
  }

  lemma PenaltyLowers(p: u32, h: u8)
    ensures 0 <= p * (255 - h) / 255 <= p
    ensures h > 0 && p > 0 ==> p * (255 - h) / 255 < p
  {
    assert p * (255 - h) == 255 * p - p * h;
    assert h > 0 && p > 0 ==> p * h > 0;
  }

  // A record that may go on: hops left, something to claim, and short enough.
  predicate Sendable(c: Config, rec: Record, tput: u32) {
    rec.ttl > 1 && tput > 0 && rec.len <= c.hardMtu && rec.len <= AGG_BUF
  }

  // ---- one originator at one node ----------------------------------------------------------

  // The interface table's numbers of one originator. past: in unbounded numbers, the newest
  // accepted, those sent on since the last restart, and the restarts' true times. mark: the
  // last number considered for sending on since then.
  class Numbers {
    var lastSeq: u32
    var lastFwd: u32
    var restartTs: u32
    var restartValid: bool
    ghost var past: Epoch
    ghost var mark: Option<int>
    ghost var clock: int

    ghost predicate Valid()
      reads this
    {
      && lastSeq == Wrap32(past.top)
      && Rising(past.log) && RestartsApart(past.restarts)
      && (mark.Some? ==> lastFwd == Wrap32(mark.value) && mark.value <= past.top)
      && (past.log != [] ==> mark.Some? && past.log[|past.log| - 1] <= mark.value)
      && (restartValid ==> past.restarts != [])
      && (past.Lately(clock) ==> restartValid)
      && (past.restarts != [] ==>
            var t := past.restarts[|past.restarts| - 1];
            t <= clock && restartTs == Wrap32(t))
    }

    constructor ()
      ensures Valid() && past == Epoch(0, [], []) && mark == None
    {
      lastSeq, lastFwd, restartTs, restartValid := 0, 0, 0, false;
      past, mark, clock := Epoch(0, [], []), None, 0;
    }

    // The stamp, if there is one, is of this turn of the clock.
    ghost predicate Current(t: int)
      reads this
    {
      restartValid ==> past.restarts != [] && t < past.restarts[|past.restarts| - 1] + TWO32
    }

    // bat_orig_purge's part: a stamp past its use is dropped.
    method Purge(now: u32, ghost t: int)
      requires Valid() && t >= clock && now == Wrap32(t)
      modifies this
      ensures Valid() && clock == t && past == old(past) && mark == old(mark)
      ensures restartValid <==> old(restartValid) && Age(now, old(restartTs)) <= 60000
      ensures old(Current(t)) ==> forall u :: t <= u < t + TWO32 - 60000 ==> Current(u)
    {
      if restartValid {
        AgeExact(t, past.restarts[|past.restarts| - 1]);
      }
      if restartValid && Age(now, restartTs) > STAMP_CLEAR_MS {
        restartValid := false;
      }
      clock := t;
    }

    // A number from the newest on up to a jump; a jump if none was just taken.
    ghost predicate Takes(s: u32, now: u32)
      reads this
    {
      var u := past.top + SDiff(s, lastSeq);
      if u <= past.top - 64 || u >= past.top + 65536 then
        !(restartValid && Age(now, restartTs) < RESTART_MS)
      else u >= past.top
    }

    // table_update's rule for the number s, unwrapped next to the newest as u.
    method TableUpdate(s: u32, now: u32, ghost t: int) returns (v: Update, ghost u: int)
      requires Valid() && t >= clock && now == Wrap32(t)
      modifies this
      ensures Valid() && clock == t
      ensures Wrap32(u) == s && -TWO31 <= u - old(past).top < TWO31
      // The same number again, and a newer one within reach, are always taken.
      ensures v == Same <==> u == old(past).top
      ensures !old(past).Jump(u) && u > old(past).top ==> v == New && past == old(past).(top := u) && mark == old(mark)
      ensures !old(past).Jump(u) && u < old(past).top ==> v == Ignored
      ensures v == Ignored <==> !old(Takes(s, now))
      // A jump starts over, unless the last one was under 30 s ago.
      ensures old(past).Jump(u) && old(past).Lately(t) ==> v == Ignored
      ensures old(past).Jump(u) && v == Ignored ==> old(past).LatelyModulo(t)
      ensures old(past).Jump(u) && old(past).RestOver(t) ==> v == New
      ensures old(past).Jump(u) && v == New ==> past == Epoch(u, [], old(past).restarts + [t]) && mark == None
      ensures v != New ==> past == old(past) && mark == old(mark)
      // While the stamp is current its 30 s are those of true time.
      ensures old(Current(t)) ==>
        Current(t) && (old(past).Jump(u) ==> (v == Ignored <==> old(past).Lately(t)))
      ensures v != Ignored ==> past.top == u && lastSeq == s
      ensures lastFwd == old(lastFwd)
    {
      u := Unwrap(s, past.top);
      clock := t;
      var d := SDiff(s, lastSeq);
      LatelyWraps(past, t);
      OverWraps(past, t);
      if restartValid {
        AgeExact(t, past.restarts[|past.restarts| - 1]);
      }
      hide Wrap32, SDiff, Age, Rising, RestartsApart;
      if d <= -WINDOW || d >= MAX_JUMP {
        if restartValid && Age(now, restartTs) < RESTART_MS {
          return Ignored, u;
        }
        restartTs, restartValid := now, true;
        RestartOn(past.restarts, t);
        past, mark := Epoch(u, [], past.restarts + [t]), None;
        RisingNone();
        lastSeq := s;
        return New, u;
      } else if d < 0 {
        return Ignored, u;
      }
      v := if d > 0 then New else Same;
      past := past.(top := u);
      lastSeq := s;
    }

    // forward, for the record just accepted; tput: what the table keeps for its candidate.
    method Forward(c: Config, rec: Record, isRouter: bool, tput: u32) returns (out: Option<Record>)
      requires Valid() && rec.seqno == lastSeq
      modifies `lastFwd, `past, `mark
      ensures Valid() && past.top == old(past).top && past.restarts == old(past).restarts
      ensures out.Some? ==> isRouter && rec.ttl > 1 && tput > 0 && out.value == rec.(ttl := rec.ttl - 1, tput := tput)
      ensures out.Some? ==> rec.len <= c.hardMtu && rec.len <= AGG_BUF
      // Every number sent on is above all those sent on since the last restart.
      ensures past.log == old(past).log + if out.Some? then [past.top] else []
      ensures out.Some? && old(past).log != [] ==> past.top > old(past).log[|old(past).log| - 1]
      // The router's number, not the last one considered, is sent on exactly if the record can be.
      ensures out.Some? <==> isRouter && old(lastFwd) != lastSeq && Sendable(c, rec, tput)
      ensures lastFwd == if isRouter then lastSeq else old(lastFwd)
    {
      hide RestartsApart;
      if !isRouter || lastFwd == rec.seqno {
        return None;
      }
      lastFwd := rec.seqno;
      ghost var before := mark;
      mark := Some(past.top);
      assert before.Some? ==> before.value < past.top;
      if rec.ttl <= 1 || tput == 0 || rec.len > c.hardMtu || rec.len > AGG_BUF {
        return None;
      }
      RisingOn(past.log, past.top);
      hide Rising, Wrap32;
      past := past.(log := past.log + [past.top]);
      return Some(rec.(ttl := rec.ttl - 1, tput := tput));
    }

    // ogm_record's interface-table half: link is the estimate of the neighbour it came from,
    // isRouter what select_router leaves.
    method Hear(c: Config, rec: Record, link: u32, suppressed: bool, isRouter: bool, now: u32, ghost t: int)
      returns (out: Option<Record>)
      requires Valid() && t >= clock && now == Wrap32(t)
      modifies this
      ensures Valid() && clock == t
      ensures out.Some? ==> Hop(c, link, rec, out.value)
      // Sent on exactly if the number is taken, its sender is the router and it was not sent on.
      ensures out.Some? <==>
        && rec.tput > 0 && !suppressed && old(Takes(rec.seqno, now)) && isRouter && old(lastFwd) != rec.seqno
        && rec.ttl > 1 && IfaceTput(c, if link < rec.tput then link else rec.tput) > 0
        && rec.len <= c.hardMtu && rec.len <= 1536
      ensures lastFwd == if rec.tput > 0 && !suppressed && old(Takes(rec.seqno, now)) && isRouter then rec.seqno
                         else old(lastFwd)
      ensures out.Some? ==> past.log != [] && Wrap32(past.log[|past.log| - 1]) == rec.seqno
      ensures past.log == old(past).log || past.log == []
              || (past.restarts == old(past).restarts && past.log == old(past).log + [past.top])
              || (|past.restarts| > |old(past).restarts| && past.log == [past.top])
    {
      hide Takes, IfaceTput, Age, BcastWindow.Epoch.Jump;
      if rec.tput == 0 || suppressed {
        clock := t;
        return None;
      }
      var p := if link < rec.tput then link else rec.tput;
      var v, u := TableUpdate(rec.seqno, now, t);
      if v == Ignored {
        return None;
      }
      hide BcastWindow.Epoch.Jump, Penalised, Rising, RestartsApart;
      out := Forward(c, rec, isRouter, IfaceTput(c, p));
    }
  }

  // Sent on once each since a restart, in order.
  ghost predicate Rising(log: seq<int>) {
    forall i, j :: 0 <= i < j < |log| ==> log[i] < log[j]
  }

  lemma RisingNone()
    ensures Rising([])
  {
  }

  lemma RestartOn(restarts: seq<int>, t: int)
    requires RestartsApart(restarts) && (restarts != [] ==> t - restarts[|restarts| - 1] >= RESTART_MS)
    ensures RestartsApart(restarts + [t])
  {
  }

  lemma RisingOn(log: seq<int>, u: int)
    requires Rising(log) && (log != [] ==> log[|log| - 1] < u)
    ensures Rising(log + [u])
  {
  }

  ghost predicate RestartsApart(restarts: seq<int>) {
    forall i, j :: 0 <= i < j < |restarts| ==> restarts[j] - restarts[i] >= RESTART_MS
  }

  // ---- along a path -----------------------------------------------------------------------

  // One node sends on a record it heard over a link of that estimate.
  ghost predicate Hop(c: Config, link: u32, heard: Record, sent: Record) {
    && heard.tput > 0 && heard.ttl > 1 && sent.tput > 0
    && sent == heard.(ttl := heard.ttl - 1, tput := IfaceTput(c, if link < heard.tput then link else heard.tput))
  }

  datatype Node = Node(c: Config, link: u32)

  // recs[0] as it set out; node i heard recs[i] and sent recs[i + 1].
  ghost predicate Path(nodes: seq<Node>, recs: seq<Record>) {
    |recs| == |nodes| + 1
    && forall i :: 0 <= i < |nodes| ==> Hop(nodes[i].c, nodes[i].link, recs[i], recs[i + 1])
  }

  // Nothing rises, link by link: the claim is at most every estimate behind it.
  lemma {:induction false} NoRise(nodes: seq<Node>, recs: seq<Record>, i: nat, k: nat)
    requires Path(nodes, recs) && i <= k < |recs|
    ensures recs[k].tput <= recs[i].tput
    ensures i < k ==> recs[k].tput <= nodes[i].link
    ensures i < k && nodes[i].c.hopPenalty > 0 ==> recs[k].tput < recs[i].tput
    decreases k - i
  {
    if i < k {
      assert Hop(nodes[i].c, nodes[i].link, recs[i], recs[i + 1]);
      NoRise(nodes, recs, i + 1, k);
    }
  }

  // Each hop takes one off the TTL and needs two: a record that set out with a TTL of 50 is
  // sent on 49 times at most, whatever path it takes.
  lemma {:induction false} TtlFalls(nodes: seq<Node>, recs: seq<Record>, k: nat)
    requires Path(nodes, recs) && k < |recs|
    ensures recs[k].ttl == recs[0].ttl - k && recs[k].seqno == recs[0].seqno
    ensures k > 0 ==> k <= recs[0].ttl - 1
  {
    if k > 0 {
      assert Hop(nodes[k - 1].c, nodes[k - 1].link, recs[k - 1], recs[k]);
      TtlFalls(nodes, recs, k - 1);
    }
  }

  lemma PowPos(n: nat)
    ensures Pow2(n) > 0
  {
  }

  lemma HalfAgain(x: nat, d: nat)
    requires d > 0
    ensures x / d / 2 == x / (2 * d)
  {
    var q, r := x / d, x % d;
    var q2, r2 := q / 2, q % 2;
    Halves(d, q2, r2);
    Quotient(x, 2 * d, q2, d * r2 + r);
  }

  lemma Halves(d: nat, q: nat, r: nat)
    requires r < 2
    ensures d * (2 * q + r) == 2 * d * q + d * r && d * r == if r == 0 then 0 else d
  {
  }

  lemma Quotient(x: nat, d: nat, q: nat, r: nat)
    requires x == d * q + r && r < d
    ensures x / d == q
  {
    Multiple(x / d - q, d);
    assert (x / d - q) * d == r - x % d;
  }

  lemma Multiple(k: int, d: int)
    requires d > 0
    ensures k == 0 || k * d >= d || k * d <= -d
  {
  }

  // With half-duplex links everywhere, h hops leave at most the 2^h-th part of the largest
  // claim, or the default.
  lemma {:induction false} HalfDuplexHalves(nodes: seq<Node>, recs: seq<Record>, h: nat)
    requires Path(nodes, recs) && h < |recs| && forall i :: 0 <= i < |nodes| ==> nodes[i].c.halfDuplex
    ensures Pow2(h) > 0
    ensures recs[h].tput <= TPUT_DEFAULT || recs[h].tput <= recs[0].tput / Pow2(h)
  {
    PowPos(h);
    if h > 0 {
      assert Hop(nodes[h - 1].c, nodes[h - 1].link, recs[h - 1], recs[h]);
      HalfDuplexHalves(nodes, recs, h - 1);
      HalfAgain(recs[0].tput, Pow2(h - 1));
    }
  }

  // The metric keeps the order of two paths, whatever they are, exactly when it does not halve
  // or the penalty takes the default down to what halving leaves just above it.
  lemma KeepsOrder(c: Config)
    ensures (forall p: u32, q: u32 :: p <= q ==> IfaceTput(c, p) <= IfaceTput(c, q))
            <==> !c.halfDuplex || c.hopPenalty > 102
  {
    if c.halfDuplex && c.hopPenalty <= 102 {
      assert IfaceTput(c, 11) == 5;
      assert 10 * (255 - c.hopPenalty) >= 1530;
      assert IfaceTput(c, 10) >= 6;
    } else {
      forall p: u32, q: u32 | p <= q
        ensures IfaceTput(c, p) <= IfaceTput(c, q)
      {
        PenaltyKeepsOrder(p, q, c.hopPenalty);
        if c.halfDuplex && p <= 10 {
          PenaltyKeepsOrder(p, 10, c.hopPenalty);
          assert 10 * (255 - c.hopPenalty) < 1530;
        }
      }
    }
  }

  lemma PenaltyKeepsOrder(p: u32, q: u32, h: u8)
    requires p <= q
    ensures Penalised(p, h) <= Penalised(q, h)
  {
    TimesKeepsOrder(p, q, 255 - h);
    DivideKeepsOrder(p * (255 - h), q * (255 - h));
  }

  lemma TimesKeepsOrder(p: int, q: int, w: nat)
    requires p <= q
    ensures p * w <= q * w
  {
  }

  lemma DivideKeepsOrder(a: int, b: int)
    requires a <= b
    ensures a / 255 <= b / 255
  {
  }
}
