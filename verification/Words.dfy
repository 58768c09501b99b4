// Fixed-width machine words and the modular clock arithmetic of the engine
// (bat_age, bat_due and the signed differences of bat_internal.h).
module Words {
  const TWO31: int := 0x8000_0000
  const TWO32: int := 0x1_0000_0000

  type u8 = x: int | 0 <= x < 0x100
  type u16 = x: int | 0 <= x < 0x1_0000
  type u32 = x: int | 0 <= x < TWO32

  function Wrap32(x: int): (r: u32) {
    x % TWO32
  }

  // (int32_t)(a - b)
  function SDiff(a: u32, b: u32): int {
    var d := Wrap32(a - b);
    if d < TWO31 then d else d - TWO32
  }

  // bat_age: b->now - ts, unsigned
  function Age(now: u32, ts: u32): u32 {
    Wrap32(now - ts)
  }

  lemma WrapNext(x: int)
    ensures Wrap32(Wrap32(x) + 1) == Wrap32(x + 1)
  {
  }

  // A signed difference of two wrapped counters is the true difference
  // exactly when the true difference fits in 32 bits.
  lemma SDiffExact(x: int, y: int)
    ensures SDiff(Wrap32(x), Wrap32(y)) == x - y <==> -TWO31 <= x - y < TWO31
  {
    assert Wrap32(Wrap32(x) - Wrap32(y)) == (x - y) % TWO32;
  }

  // An age is the true elapsed time exactly while less than one turn has passed.
  lemma AgeExact(t: int, t0: int)
    ensures Age(Wrap32(t), Wrap32(t0)) == t - t0 <==> 0 <= t - t0 < TWO32
  {
    assert Wrap32(Wrap32(t) - Wrap32(t0)) == (t - t0) % TWO32;
  }

  // Adding the signed difference back gives the other counter.
  lemma SDiffBack(s: u32, y: int)
    ensures Wrap32(y + SDiff(s, Wrap32(y))) == s
    ensures -TWO31 <= SDiff(s, Wrap32(y)) < TWO31
  {
    var d := Wrap32(s - Wrap32(y));
    assert (y + d) % TWO32 == s;
    assert (y + d - TWO32) % TWO32 == s;
  }

  function Pow2(n: nat): nat {
    if n == 0 then 1 else 2 * Pow2(n - 1)
  }
}
