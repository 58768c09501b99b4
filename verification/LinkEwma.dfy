// A neighbour's throughput estimate (main/bat/bat_elp.c, bat_elp_send and bat_neigh_tput):
// each ELP mixes one eighth of a new sample into an accumulator of 1/1024 units.
module LinkEwma {
  import opened Words

  const UNIT: int := 1024
  const TPUT_DEFAULT: u32 := 10
  const TPUT_UNKNOWN: u32 := 0xFFFF_FFFF

  // sample(): the override, else what the radio says, else the default.
  function Sampled(tputOverride: u32, link: u32): u32 {
    if tputOverride != 0 then tputOverride else if link == TPUT_UNKNOWN then TPUT_DEFAULT else link
  }

  // One update without overflow; 0 is an empty accumulator.
  function Mix(acc: nat, s: nat): nat {
    if acc == 0 then s * UNIT else (7 * acc + s * UNIT) / 8
  }

  function Reading(acc: nat): nat {
    acc / UNIT
  }

  ghost predicate Between(samples: seq<u32>, acc: nat) {
    exists lo, hi :: lo in samples && hi in samples && lo * UNIT <= acc <= hi * UNIT
  }

  // An average of samples and one more stays between their least and greatest.
  lemma MixStays(samples: seq<u32>, acc: nat, s: u32)
    requires Between(samples, acc)
    ensures Between(samples + [s], (7 * acc + s * UNIT) / 8)
  {
    var lo, hi :| lo in samples && hi in samples && lo * UNIT <= acc <= hi * UNIT;
    var lo' := if s < lo then s else lo;
    var hi' := if s > hi then s else hi;
    var all := samples + [s];
    assert all[|samples|] == s && lo in all && hi in all;
    assert lo' in all && hi' in all && lo' * UNIT <= (7 * acc + s * UNIT) / 8 <= hi' * UNIT;
  }

  class Link {
    var acc: nat
    // What was mixed in since the accumulator was last empty.
    ghost var samples: seq<u32>

    // The accumulator fits its 64 bits, and so does the sum on the way to the next.
    ghost predicate Valid()
      reads this
    {
      acc <= 0xFFFF_FFFF * UNIT && (acc == 0 || Between(samples, acc))
    }

    constructor ()
      ensures Valid() && acc == 0
    {
      acc, samples := 0, [];
    }

    method Mixed(tputOverride: u32, link: u32) returns (s: u32)
      requires Valid()
      modifies this
      ensures Valid() && s == Sampled(tputOverride, link)
      // A set throughput counts, else what the radio knows, else 10.
      ensures tputOverride > 0 ==> s == tputOverride
      ensures tputOverride == 0 ==> s == link || (link == 0xFFFF_FFFF && s == 10)
      ensures tputOverride == 0 && link == 0xFFFF_FFFF ==> s == 10
      ensures samples == (if old(acc) == 0 then [] else old(samples)) + [s]
      ensures acc == Mix(old(acc), s)
      ensures 7 * old(acc) + s * UNIT < 0x1_0000_0000_0000_0000
      ensures Between(samples, acc)
    {
      s := if tputOverride != 0 then tputOverride else if link == TPUT_UNKNOWN then TPUT_DEFAULT else link;
      if acc == 0 {
        samples := [s];
        assert s in samples;
        acc := s * UNIT;
      } else {
        MixStays(samples, acc, s);
        samples := samples + [s];
        acc := (7 * acc + s * UNIT) / 8;
      }
    }

    // bat_neigh_tput
    method Tput() returns (r: u32)
      requires Valid()
      ensures acc != 0 ==> exists lo, hi :: lo in samples && hi in samples && lo <= r <= hi
      ensures r == Reading(acc)
    {
      r := acc / UNIT;
      if acc != 0 {
        ghost var lo, hi :| lo in samples && hi in samples && lo * UNIT <= acc <= hi * UNIT;
        assert lo <= r <= hi;
      }
    }
  }

  // ---- a constant sample ------------------------------------------------------------------

  function Gap(acc: nat, s: nat): nat {
    if acc < s * UNIT then s * UNIT - acc else acc - s * UNIT
  }

  // What the rounding does not swallow: the gap past seven.
  function Excess(acc: nat, s: nat): nat {
    if Gap(acc, s) > 7 then Gap(acc, s) - 7 else 0
  }

  function Repeat(acc: nat, s: nat, n: nat): nat
    decreases n
  {
    if n == 0 then acc else Repeat(Mix(acc, s), s, n - 1)
  }

  function Pow(b: nat, n: nat): nat {
    if n == 0 then 1 else b * Pow(b, n - 1)
  }

  // One more of the same sample never widens the gap, and takes an eighth off its excess.
  lemma GapFalls(acc: nat, s: nat)
    ensures Gap(Mix(acc, s), s) <= Gap(acc, s)
    ensures Gap(acc, s) > 7 ==> Gap(Mix(acc, s), s) < Gap(acc, s)
    ensures 8 * Excess(Mix(acc, s), s) <= 7 * Excess(acc, s)
  {
  }

  lemma PowStep(n: nat, e: nat, e1: nat, e0: nat)
    requires n > 0 && Pow(8, n - 1) * e <= Pow(7, n - 1) * e1 && 8 * e1 <= 7 * e0
    ensures Pow(8, n) * e <= Pow(7, n) * e0
  {
    var p, q := Pow(8, n - 1), Pow(7, n - 1);
    assert Pow(8, n) * e == 8 * (p * e);
    assert Pow(7, n) * e0 == q * (7 * e0);
    assert 8 * (q * e1) == q * (8 * e1) <= q * (7 * e0);
  }

  // After n equal samples the excess is at most (7/8)^n of what it was.
  lemma {:induction false} Converges(acc: nat, s: nat, n: nat)
    ensures Pow(8, n) * Excess(Repeat(acc, s, n), s) <= Pow(7, n) * Excess(acc, s)
    ensures Gap(Repeat(acc, s, n), s) <= Gap(acc, s)
    decreases n
  {
    hide Mix, Excess, Gap;
    if n > 0 {
      var m := Mix(acc, s);
      GapFalls(acc, s);
      Converges(m, s, n - 1);
      PowStep(n, Excess(Repeat(m, s, n - 1), s), Excess(m, s), Excess(acc, s));
    }
  }

  lemma Vanishes(p: nat, e: nat)
    ensures e == 0 || p * e >= p
  {
  }

  // Once the excess is gone the reading is the sample or one unit under it, for good.
  lemma Settled(acc: nat, s: nat, n: nat, k: nat)
    requires Pow(7, n) * Excess(acc, s) < Pow(8, n)
    ensures s - 1 <= Reading(Repeat(acc, s, n + k)) <= s
  {
    Converges(acc, s, n);
    var e := Excess(Repeat(acc, s, n), s);
    Vanishes(Pow(8, n), e);
    RepeatMore(acc, s, n, k);
    hide Repeat, Mix, Excess, Pow;
    StaysClose(Repeat(acc, s, n), s, k);
  }

  lemma {:induction false} RepeatMore(acc: nat, s: nat, n: nat, k: nat)
    ensures Repeat(acc, s, n + k) == Repeat(Repeat(acc, s, n), s, k)
    decreases n
  {
    if n > 0 {
      RepeatMore(Mix(acc, s), s, n - 1, k);
    }
  }

  lemma {:induction false} StaysClose(acc: nat, s: nat, k: nat)
    requires Excess(acc, s) == 0
    ensures s - 1 <= Reading(Repeat(acc, s, k)) <= s
    decreases k
  {
    GapFalls(acc, s);
    if k > 0 {
      StaysClose(Mix(acc, s), s, k - 1);
    }
  }

  // From above the gap closes wholly, by an eighth of it at least and by one unit at least
  // with each sample, and then stays closed.
  lemma {:induction false} ClosesFromAbove(acc: nat, s: nat, n: nat)
    requires acc >= s * UNIT
    ensures
      var r := Repeat(acc, s, n);
      r >= s * UNIT && Pow(8, n) * (r - s * UNIT) <= Pow(7, n) * (acc - s * UNIT)
      && (r == s * UNIT || r - s * UNIT + n <= acc - s * UNIT)
    decreases n
  {
    if n > 0 {
      var m := Mix(acc, s);
      assert m >= s * UNIT && 8 * (m - s * UNIT) <= 7 * (acc - s * UNIT);
      ClosesFromAbove(m, s, n - 1);
      PowStep(n, Repeat(m, s, n - 1) - s * UNIT, m - s * UNIT, acc - s * UNIT);
      hide Pow;
    }
  }

  // From below it never does.
  lemma {:induction false} StaysBelow(acc: nat, s: nat, n: nat)
    requires 0 < acc < s * UNIT
    ensures 0 < Repeat(acc, s, n) < s * UNIT && Reading(Repeat(acc, s, n)) < s
    decreases n
  {
    if n > 0 {
      StaysBelow(Mix(acc, s), s, n - 1);
    }
  }

  // The reading gets to a constant sample exactly from an empty accumulator or from at least
  // the sample; then with the first sample, or with as many as the gap has units.
  lemma ReachesSample(acc: nat, s: nat)
    ensures (exists n :: Reached(acc, s, n)) <==> acc == 0 || acc >= s * UNIT
    ensures acc == 0 ==> Reached(acc, s, 1)
    ensures acc >= s * UNIT ==> forall n :: n >= acc - s * UNIT ==> Reached(acc, s, n)
  {
    if acc >= s * UNIT {
      forall n: nat | n >= acc - s * UNIT
        ensures Reached(acc, s, n)
      {
        ClosesFromAbove(acc, s, n);
      }
      assert Reached(acc, s, acc - s * UNIT);
    } else if acc == 0 {
      assert Repeat(acc, s, 1) == Repeat(Mix(acc, s), s, 0) == s * UNIT;
      assert Reached(acc, s, 1);
    } else {
      forall n: nat
        ensures !Reached(acc, s, n)
      {
        StaysBelow(acc, s, n);
      }
    }
  }

  predicate Reached(acc: nat, s: nat, n: nat) {
    Reading(Repeat(acc, s, n)) == s
  }

  // Once from above it is there for good; once from below it is one unit under for good.
  lemma SettledWhere(acc: nat, s: nat, n: nat, k: nat)
    requires Pow(7, n) * Gap(acc, s) < Pow(8, n)
    ensures acc >= s * UNIT ==> Repeat(acc, s, n + k) == s * UNIT
    ensures 0 < acc < s * UNIT ==> Reading(Repeat(acc, s, n + k)) == s - 1
  {
    if acc >= s * UNIT {
      ClosesFromAbove(acc, s, n);
      Vanishes(Pow(8, n), Repeat(acc, s, n) - s * UNIT);
      RepeatMore(acc, s, n, k);
      ClosesFromAbove(s * UNIT, s, k);
    } else if acc > 0 {
      ExcessBelowGap(Pow(7, n), acc, s);
      Settled(acc, s, n, k);
      StaysBelow(acc, s, n + k);
    }
    hide Pow, Repeat;
  }

  lemma ExcessBelowGap(p: nat, acc: nat, s: nat)
    ensures p * Excess(acc, s) <= p * Gap(acc, s)
  {
  }

  // The seven are real: an accumulator that far under its sample stays there.
  lemma SevenUnderStays(s: nat, n: nat)
    requires s > 0
    ensures Repeat(s * UNIT - 7, s, n) == s * UNIT - 7
    ensures Reading(s * UNIT - 7) == s - 1
  {
    if n > 0 {
      SevenUnderStays(s, n - 1);
    }
  }
}
