// The duplicate window of an originator's broadcasts (main/bat/bat_bcast.c): a
// 64-bit history below the newest sequence number, with restart protection.
// Its partner is Epoch, the history itself in unbounded numbers and true time.
module BcastWindow {
  import opened Words

  const WINDOW: int := 64
  const MAX_JUMP: int := 65536
  const RESTART_MS: nat := 30000
  const STAMP_CLEAR_MS: nat := 60000

  datatype Verdict = Accept | Dup | Blocked

  // A uint64_t as its bits, bit 0 first.
  type Bits = b: seq<bool> | |b| == WINDOW witness seq(WINDOW, i => false)

  const ONE: Bits := seq(WINDOW, i => i == 0)

  function ShiftLeft(b: Bits, g: nat): Bits {
    seq(WINDOW, i requires 0 <= i < WINDOW => i >= g && b[i - g])
  }

  function Or(b: Bits, c: Bits): Bits {
    seq(WINDOW, i requires 0 <= i < WINDOW => b[i] || c[i])
  }

  // What was accepted since the last restart, unwrapped and in order; the newest
  // number; the true time of every restart.
  datatype Epoch = Epoch(top: int, log: seq<int>, restarts: seq<int>) {
    predicate Jump(u: int) {
      u <= top - WINDOW || u >= top + MAX_JUMP
    }

    predicate Fresh(u: int) {
      !Jump(u) && u !in log
    }

    predicate Lately(t: int) {
      restarts != [] && t - restarts[|restarts| - 1] < RESTART_MS
    }

    // No restart yet, or the last one 30 s and less than a turn of the clock ago.
    predicate RestOver(t: int) {
      restarts == [] || 30000 <= t - restarts[|restarts| - 1] < TWO32
    }

    // The same seen through a 32-bit clock.
    predicate LatelyModulo(t: int) {
      restarts != [] && Age(Wrap32(t), Wrap32(restarts[|restarts| - 1])) < RESTART_MS
    }

    function Take(u: int): Epoch {
      this.(top := if u > top then u else top, log := log + [u])
    }

    function Restart(u: int, t: int): Epoch {
      Epoch(u, [u], restarts + [t])
    }

    ghost predicate Consistent() {
      && (forall i, j :: 0 <= i < j < |log| ==> log[i] != log[j])
      && (forall u :: u in log ==> u <= top)
      && (forall i, j :: 0 <= i < j < |restarts| ==> restarts[j] - restarts[i] >= RESTART_MS)
    }
  }

  // Bit i stands for the number i below the newest.
  ghost predicate Mirrors(bits: Bits, e: Epoch) {
    forall i :: 0 <= i < WINDOW ==> (bits[i] <==> e.top - i in e.log)
  }

  // The number s stands for next to the newest one, and both signed distances to it.
  lemma Unwrap(s: u32, top: int) returns (u: int)
    ensures Wrap32(u) == s && -TWO31 <= u - top < TWO31
    ensures SDiff(s, Wrap32(top)) == u - top
    ensures u - top > -TWO31 ==> SDiff(Wrap32(top), s) == top - u
    ensures u - top == -TWO31 ==> SDiff(Wrap32(top), s) < 0
  {
    u := top + SDiff(s, Wrap32(top));
    SDiffBack(s, top);
    SDiffExact(top, u);
  }

  lemma InAppended(log: seq<int>, u: int, x: int)
    ensures x in log + [u] <==> x in log || x == u
  {
  }

  lemma TakeConsistent(e: Epoch, u: int)
    requires e.Consistent() && u !in e.log
    ensures e.Take(u).Consistent()
  {
    forall i | 0 <= i < |e.log|
      ensures e.log[i] != u
    {
      assert e.log[i] in e.log;
    }
    forall x | x in e.log + [u]
      ensures x <= e.Take(u).top
    {
      InAppended(e.log, u, x);
    }
  }

  // A late number inside the window sets its own bit.
  lemma MirrorLate(bits: Bits, e: Epoch, u: int)
    requires Mirrors(bits, e) && e.Consistent() && e.Fresh(u) && u <= e.top
    ensures Mirrors(Or(bits, ShiftLeft(ONE, e.top - u)), e.Take(u)) && e.Take(u).Consistent()
  {
    TakeConsistent(e, u);
    var b := Or(bits, ShiftLeft(ONE, e.top - u));
    forall i | 0 <= i < WINDOW
      ensures b[i] <==> e.top - i in e.log + [u]
    {
      InAppended(e.log, u, e.top - i);
    }
  }

  // A newer number less than a window ahead shifts the history up to it.
  lemma MirrorShift(bits: Bits, e: Epoch, u: int)
    requires Mirrors(bits, e) && e.Consistent() && 0 < u - e.top < WINDOW
    ensures Mirrors(Or(ShiftLeft(bits, u - e.top), ONE), e.Take(u)) && e.Take(u).Consistent()
  {
    TakeConsistent(e, u);
    var b := Or(ShiftLeft(bits, u - e.top), ONE);
    forall i | 0 <= i < WINDOW
      ensures b[i] <==> u - i in e.log + [u]
    {
      InAppended(e.log, u, u - i);
      if i >= u - e.top {
        assert u - i == e.top - (i - (u - e.top));
      }
    }
  }

  // One further ahead, or the first after a restart, has nothing below it in the window.
  lemma MirrorAhead(e: Epoch, u: int)
    requires e.Consistent() && (u - e.top >= WINDOW || (e.log == [] && e.top == u))
    ensures Mirrors(ONE, e.Take(u)) && e.Take(u).Consistent()
  {
    TakeConsistent(e, u);
    forall i | 0 <= i < WINDOW
      ensures ONE[i] <==> u - i in e.log + [u]
    {
      InAppended(e.log, u, u - i);
    }
  }

  lemma OverWraps(e: Epoch, t: int)
    ensures e.RestOver(t) ==> !e.LatelyModulo(t)
  {
    if e.restarts != [] {
      AgeExact(t, e.restarts[|e.restarts| - 1]);
    }
  }

  // A 32-bit clock never takes a restart of the last 30 s for an older one.
  lemma LatelyWraps(e: Epoch, t: int)
    requires e.restarts != [] ==> e.restarts[|e.restarts| - 1] <= t
    ensures e.Lately(t) ==> e.LatelyModulo(t)
  {
    if e.restarts != [] {
      AgeExact(t, e.restarts[|e.restarts| - 1]);
    }
  }

  class Window {
    var last: u32
    var bits: Bits
    var resetTs: u32
    var resetValid: bool
    ghost var epoch: Epoch
    ghost var clock: int

    ghost predicate Valid()
      reads this
    {
      && epoch.Consistent()
      && last == Wrap32(epoch.top)
      && Mirrors(bits, epoch)
      && (resetValid ==> epoch.restarts != [])
      && (epoch.Lately(clock) ==> resetValid)
      && (epoch.restarts != [] ==>
            var t := epoch.restarts[|epoch.restarts| - 1];
            t <= clock && resetTs == Wrap32(t))
    }

    constructor ()
      ensures Valid() && epoch == Epoch(0, [], [])
    {
      last, bits, resetTs, resetValid := 0, seq(WINDOW, i => false), 0, false;
      epoch, clock := Epoch(0, [], []), 0;
    }

    // The stamp, if there is one, is of this turn of the clock.
    ghost predicate Current(t: int)
      reads this
    {
      resetValid ==> epoch.restarts != [] && t < epoch.restarts[|epoch.restarts| - 1] + TWO32
    }

    // bat_orig_purge: the restart stamp is dropped once past its use, so that it cannot come to
    // look young again before the next purge but one turn later.
    method Purge(now: u32, ghost t: int)
      requires Valid() && t >= clock && now == Wrap32(t)
      modifies this
      ensures Valid() && clock == t && epoch == old(epoch)
      ensures last == old(last) && bits == old(bits)
      ensures resetValid <==> old(resetValid) && Age(now, old(resetTs)) <= 60000
      ensures old(Current(t)) ==> forall u :: t <= u < t + TWO32 - 60000 ==> Current(u)
    {
      if resetValid {
        AgeExact(t, epoch.restarts[|epoch.restarts| - 1]);
      }
      if resetValid && Age(now, resetTs) > STAMP_CLEAR_MS {
        resetValid := false;
      }
      clock := t;
    }

    // A packet numbered s at true time t. u is s unwrapped next to the newest number.
    method Judge(s: u32, now: u32, ghost t: int) returns (v: Verdict, ghost u: int)
      requires Valid() && t >= clock && now == Wrap32(t)
      modifies this
      ensures Valid() && clock == t
      ensures Wrap32(u) == s && -TWO31 <= u - old(epoch).top < TWO31
      // A duplicate is exactly a number inside the window accepted before.
      ensures v == Dup <==> !old(epoch).Jump(u) && u in old(epoch).log
      // Every fresh number is accepted, whatever the restart stamp says.
      ensures old(epoch).Fresh(u) ==> v == Accept && epoch == old(epoch).Take(u)
      // A jump restarts the history unless the last restart was under 30 s ago.
      ensures old(epoch).Jump(u) && old(epoch).Lately(t) ==> v == Blocked
      ensures v == Blocked ==> old(epoch).Jump(u) && old(epoch).LatelyModulo(t)
      ensures old(epoch).Jump(u) && old(epoch).RestOver(t) ==> v == Accept
      ensures old(epoch).Jump(u) && v == Accept ==> epoch == old(epoch).Restart(u, t)
      ensures v != Accept ==> epoch == old(epoch)
      // While the stamp is current its 30 s are those of true time.
      ensures old(Current(t)) ==> Current(t) && (v == Blocked <==> old(epoch).Jump(u) && old(epoch).Lately(t))
    {
      ghost var e := epoch;
      u := Unwrap(s, e.top);
      clock := t;
      var d := SDiff(last, s);
      if 0 <= d < WINDOW && bits[d] {
        return Dup, u;
      }
      var g := SDiff(s, last);
      LatelyWraps(e, t);
      OverWraps(e, t);
      if resetValid {
        AgeExact(t, e.restarts[|e.restarts| - 1]);
      }
      hide Wrap32, SDiff, Age;
      if g <= -WINDOW || g >= MAX_JUMP {
        if resetValid && Age(now, resetTs) < RESTART_MS {
          return Blocked, u;
        }
        resetTs, resetValid := now, true;
        e := Epoch(u, [], e.restarts + [t]);
      }
      Record(s, g, e, u);
      return Accept, u;
    }

    // The history after an accepted number, g ahead of the newest.
    method Record(s: u32, g: int, ghost e: Epoch, ghost u: int)
      requires e.Consistent() && s == Wrap32(u)
      requires if -WINDOW < g < WINDOW
               then u == e.top + g && u !in e.log && last == Wrap32(e.top) && Mirrors(bits, e)
               else u - e.top >= WINDOW || (e.log == [] && e.top == u)
      modifies `last, `bits, `epoch
      ensures epoch == e.Take(u) && epoch.Consistent()
      ensures last == Wrap32(epoch.top) && Mirrors(bits, epoch)
    {
      if -WINDOW < g <= 0 {
        MirrorLate(bits, e, u);
        bits := Or(bits, ShiftLeft(ONE, -g));
      } else if 0 < g < WINDOW {
        MirrorShift(bits, e, u);
        bits := Or(ShiftLeft(bits, g), ONE);
        last := s;
      } else {
        MirrorAhead(e, u);
        bits := ONE;
        last := s;
      }
      epoch := e.Take(u);
    }
  }
}
