// The receiver's three reassembly slots (main/bat/bat_frag.c, slot_get, bat_frag_rx,
// reassemble, the purge): buffers filled in place, refining FragAssembly.Receive.
module FragSlots {
  import opened Words
  import opened FragSplit
  import opened FragAssembly
  import Counting

  const SLOTS: int := 3
  const TIMEOUT_MS: int := 10000
  const STEAL_MS: int := 1000

  datatype PieceRef = PieceRef(used: bool, off: nat, len: nat)

  function NoPieces(): seq<PieceRef> {
    seq(MAX_N, i => PieceRef(false, 0, 0))
  }

  // Which packet a fragment belongs to: the originator that cut it and its sequence number.
  datatype Key = Key(orig: nat, seqno: u16)

  datatype Slot = Slot(used: bool, key: Key, total: nat, have: nat, ts: u32, piece: seq<PieceRef>, buf: Bytes) {
    predicate Bounded() {
      && |piece| == MAX_N && |buf| == BUF && have <= BUF
      && (forall k :: 0 <= k < MAX_N && piece[k].used ==> 0 < piece[k].len && piece[k].off + piece[k].len <= have)
    }

    function Got(): Pieces
      requires Bounded()
    {
      map k: nat | k < MAX_N && piece[k].used :: buf[piece[k].off..piece[k].off + piece[k].len]
    }

    // The pieces lie side by side in the first have bytes of the buffer and fill them.
    ghost predicate Tiled() {
      && Bounded()
      && (forall j, k :: 0 <= j < MAX_N && 0 <= k < MAX_N && j != k && piece[j].used && piece[k].used ==>
            piece[j].off + piece[j].len <= piece[k].off || piece[k].off + piece[k].len <= piece[j].off)
      && Size(Got(), MAX_N) == have
    }

    ghost predicate Ok() {
      && Tiled()
      && (used ==> 0 < have < total <= BUF)
      && (!used ==> have == 0 && forall k :: 0 <= k < MAX_N ==> !piece[k].used)
    }

    ghost function View(): Option<Partial>
      requires Ok()
    {
      if used then Some(Partial(total, Got())) else None
    }

    predicate Is(k: Key) {
      used && key == k
    }

    predicate Holds(num: nat) {
      num < |piece| && piece[num].used
    }

    function Freed(): Slot {
      this.(used := false, have := 0, piece := NoPieces())
    }

    function Fresh(k: Key, total': nat): Slot {
      this.(used := true, key := k, total := total', have := 0)
    }

    function Store(num: nat, data: Bytes, now: u32): Slot
      requires Bounded() && num < MAX_N && have + |data| <= BUF
    {
      this.(piece := piece[num := PieceRef(true, have, |data|)],
            buf := buf[..have] + data + buf[have + |data|..],
            have := have + |data|,
            ts := now)
    }
  }

  lemma {:induction false} EmptySize(n: nat)
    ensures Size(map[], n) == 0
  {
    if n > 0 {
      EmptySize(n - 1);
    }
  }

  lemma FreedIsOk(s: Slot)
    requires |s.buf| == BUF
    ensures s.Freed().Ok() && s.Freed().Got() == map[] && s.Freed().View() == None
  {
    assert s.Freed().Got() == map[];
    EmptySize(MAX_N);
  }

  lemma StoreKeepsBytes(buf: Bytes, have: nat, data: Bytes, lo: nat, hi: nat)
    requires lo <= hi <= have && have + |data| <= |buf|
    ensures (buf[..have] + data + buf[have + |data|..])[lo..hi] == buf[lo..hi]
    ensures (buf[..have] + data + buf[have + |data|..])[have..have + |data|] == data
  {
  }

  lemma StoreGot(s: Slot, num: nat, data: Bytes, now: u32)
    requires s.Bounded() && num < MAX_N && !s.piece[num].used && data != [] && s.have + |data| <= BUF
    ensures s.Store(num, data, now).Bounded()
    ensures s.Store(num, data, now).Got() == s.Got()[num := data]
  {
    var s' := s.Store(num, data, now);
    forall k: nat | k < MAX_N && s'.piece[k].used
      ensures k in s.Got()[num := data] && s'.Got()[k] == s.Got()[num := data][k]
    {
      if k == num {
        StoreKeepsBytes(s.buf, s.have, data, 0, 0);
      } else {
        StoreKeepsBytes(s.buf, s.have, data, s.piece[k].off, s.piece[k].off + s.piece[k].len);
      }
    }
  }

  // A new piece goes behind the others and leaves them where they are.
  lemma StoreAddsPiece(s: Slot, num: nat, data: Bytes, now: u32)
    requires s.Tiled() && num < MAX_N && !s.piece[num].used && data != [] && s.have + |data| <= BUF
    ensures s.Store(num, data, now).Tiled()
    ensures s.Store(num, data, now).Got() == s.Got()[num := data]
  {
    StoreGot(s, num, data, now);
    SizeStore(s.Got(), num, data, MAX_N);
    hide Slot.Got, Size;
  }

  // ---- the table ------------------------------------------------------------------

  ghost predicate Table(slots: seq<Slot>) {
    && |slots| == SLOTS
    && (forall i :: 0 <= i < SLOTS ==> slots[i].Ok())
    && (forall i, j :: 0 <= i < j < SLOTS && slots[i].used && slots[j].used ==> slots[i].key != slots[j].key)
  }

  // Slot i may take a packet no slot holds: a free one; else the least recently updated one
  // of the same originator; else another originator's, idle for more than a second.
  ghost predicate MayTake(slots: seq<Slot>, i: nat, key: Key, now: u32)
    requires |slots| == SLOTS && i < SLOTS
  {
    || !slots[i].used
    || (&& (forall j :: 0 <= j < SLOTS ==> slots[j].used)
        && Oldest(slots, i, key, now)
        && (slots[i].key.orig == key.orig || (NoneOf(slots, key.orig, SLOTS) && Age(now, slots[i].ts) > STEAL_MS)))
  }

  // No slot of the same kind (the originator's own, or another's) waited longer.
  ghost predicate Oldest(slots: seq<Slot>, i: nat, key: Key, now: u32)
    requires |slots| == SLOTS && i < SLOTS
  {
    forall j :: 0 <= j < SLOTS && slots[j].used
                && (slots[j].key.orig == key.orig <==> slots[i].key.orig == key.orig) ==>
      Age(now, slots[j].ts) <= Age(now, slots[i].ts)
  }

  ghost predicate NoneOf(slots: seq<Slot>, orig: nat, n: nat)
    requires n <= |slots|
  {
    forall j :: 0 <= j < n ==> !(slots[j].used && slots[j].key.orig == orig)
  }

  ghost predicate Absent(slots: seq<Slot>, key: Key) {
    forall j :: 0 <= j < |slots| ==> !slots[j].Is(key)
  }

  // A fragment of packet key: landed in slot i, or refused (-1). Only that slot changes, and
  // what becomes of its packet is FragAssembly.Receive. Each new piece stamps the slot with the
  // time, a second copy does not.
  ghost predicate Landed(slots: seq<Slot>, key: Key, total: nat, num: nat, data: Bytes, now: u32,
                         i: int, slots': seq<Slot>, out: Option<Bytes>)
    requires Table(slots) && Table(slots')
  {
    if i == -1 then slots' == slots && out == None
    else
      && 0 <= i < SLOTS
      && slots' == slots[i := slots'[i]]
      && (slots[i].Is(key) || (Absent(slots, key) && MayTake(slots, i, key, now)))
      && (slots'[i].used ==>
            && slots'[i].key == key
            && slots'[i].ts == if slots[i].Is(key) && slots[i].Holds(num) then slots[i].ts else now)
      && (slots'[i].View(), out)
           == Receive(if slots[i].Is(key) then slots[i].View() else None, total, num, data)
  }

  predicate Malformed(total: u16, data: Bytes) {
    total > BUF || data == [] || total == 0 || |data| > total
  }

  // Packets of originators other than orig are packets they had.
  ghost predicate OnlyOrig(was: seq<Slot>, slots: seq<Slot>, orig: nat) {
    |was| == |slots| && forall j :: 0 <= j < |slots| && slots[j].used ==>
      slots[j].key.orig == orig || (was[j].used && was[j].key.orig == slots[j].key.orig)
  }

  lemma LandedOrig(slots: seq<Slot>, key: Key, total: nat, num: nat, data: Bytes, now: u32, i: int, slots': seq<Slot>,
                   out: Option<Bytes>)
    requires Table(slots) && Table(slots') && Landed(slots, key, total, num, data, now, i, slots', out)
    ensures OnlyOrig(slots, slots', key.orig) && (i == -1 ==> slots' == slots)
  {
    hide Slot.Ok, Receive, MayTake, Absent;
  }

  class Reassembly {
    const slots: array<Slot>

    ghost predicate Valid()
      reads slots
    {
      Table(slots[..])
    }

    constructor ()
      ensures Valid() && fresh(slots) && forall k :: Absent(slots[..], k)
      ensures forall i :: 0 <= i < slots.Length ==> !slots[i].used
    {
      var s := Slot(false, Key(0, 0), 0, 0, 0, NoPieces(), seq(BUF, i => 0));
      FreedIsOk(s);
      slots := new Slot[SLOTS](i => s);
      new;
      assert forall i :: 0 <= i < SLOTS ==> slots[i] == s.Freed();
    }

    // One pass over the slots: the fragment's own, else the first free one and the least
    // recently updated of its originator and of the others.
    method Scan(key: Key, now: u32) returns (found: int, free: int, own: int, other: int)
      requires slots.Length == SLOTS
      ensures -1 <= found < SLOTS && -1 <= free < SLOTS && -1 <= own < SLOTS && -1 <= other < SLOTS
      ensures if found != -1 then SlotFor(slots[..], key, now, found, slots[..])
              else Scanned(slots[..], key, now, SLOTS, free, own, other)
    {
      found, free, own, other := -1, -1, -1, -1;
      assert Scanned(slots[..], key, now, 0, free, own, other);
      hide *;
      for k := 0 to SLOTS
        invariant -1 <= free < k && -1 <= own < k && -1 <= other < k
        invariant Scanned(slots[..], key, now, k, free, own, other)
      {
        var s := slots[k];
        if s.used && s.key == key {
          FoundIt(slots[..], key, now, k);
          found := k;
          return;
        }
        ScanNext(slots[..], key, now, k, free, own, other);
        if !s.used {
          free := if free == -1 then k else free;
        } else if s.key.orig == key.orig {
          own := if own == -1 || Age(now, s.ts) > Age(now, slots[own].ts) then k else own;
        } else {
          other := if other == -1 || Age(now, s.ts) > Age(now, slots[other].ts) then k else other;
        }
      }
    }

    // The slot for a fragment, freed if its packet is not the fragment's; -1: drop it.
    method SlotGet(key: Key, now: u32) returns (i: int)
      requires Valid()
      modifies slots
      ensures Valid() && SlotFor(old(slots[..]), key, now, i, slots[..])
    {
      ghost var was := slots[..];
      assert slots.Length == SLOTS;
      var found, free, own, other := Scan(key, now);
      if found != -1 {
        return found;
      }
      Chosen(slots[..], key, now, free, own, other);
      if free != -1 {
        return free;
      }
      hide Table, Scanned, SlotFor, Age;
      i := if own != -1 then own
           else if other != -1 && Age(now, slots[other].ts) > STEAL_MS then other else -1;
      if i != -1 {
        assert FreedFor(was, key, now, i);
        slots[i] := slots[i].Freed();
        assert slots[..] == was[i := was[i].Freed()];
      }
    }

    // The pieces joined from the highest number down; the slot is free again.
    method Reassemble(i: nat) returns (out: Bytes)
      requires slots.Length == SLOTS && i < SLOTS && slots[i].Bounded()
      modifies slots
      ensures out == Join(old(slots[i]).Got(), MAX_N)
      ensures slots[..] == old(slots[..])[i := old(slots[i]).Freed()]
    {
      var s := slots[i];
      ghost var got := s.Got();
      out := [];
      var k := MAX_N;
      JoinNone(got);
      hide *;
      while k > 0
        modifies {}
        invariant 0 <= k <= MAX_N
        invariant out + Join(got, k) == Join(got, MAX_N)
      {
        JoinStep(s, k, out);
        k := k - 1;
        if s.piece[k].used {
          out := out + s.buf[s.piece[k].off..s.piece[k].off + s.piece[k].len];
        }
      }
      ghost var was := slots[..];
      slots[i] := s.Freed();
      assert slots[..] == was[i := s.Freed()];
    }

    // One fragment addressed to us from a known originator (key.orig its index).
    method Rx(key: Key, total: u16, num: nat, data: Bytes, now: u32) returns (i: int, out: Option<Bytes>)
      requires Valid() && num < MAX_N
      modifies slots
      ensures Valid()
      ensures if Malformed(total, data)
              then i == -1 && slots[..] == old(slots[..]) && out == None
              else Landed(old(slots[..]), key, total, num, data, now, i, slots[..], out)
                   && (i == -1 ==> AllLive(slots[..], key, now))
    {
      ghost var was := slots[..];
      i, out := -1, None;
      if total > BUF || data == [] || total == 0 || |data| > total {
        return;
      }
      i := SlotGet(key, now);
      if i == -1 {
        return;
      }
      ghost var got := slots[..];
      var s := slots[i];
      SlotForLands(was, key, now, i, got);
      hide *;
      if s.used && (s.total != total || s.piece[num].used || s.have + |data| > total) {
        RejectIsReceive(s, total, num, data);
        if s.total != total || !s.piece[num].used {
          slots[i] := s.Freed();
          assert slots[..] == got[i := s.Freed()];
          LandedIn(was, key, total, num, data, now, i, got, s.Freed(), out);
        } else {
          assert slots[..] == got[i := s];
          LandedIn(was, key, total, num, data, now, i, got, s, out);
        }
        return;
      }
      StoreIsReceive(s, key, total, num, data, now);
      s := (if s.used then s else s.Fresh(key, total)).Store(num, data, now);
      slots[i] := s;
      assert slots[..] == got[i := s];
      if s.have == s.total {
        var whole := Reassemble(i);
        out := Some(whole);
        assert slots[..] == got[i := s.Freed()];
        LandedIn(was, key, total, num, data, now, i, got, s.Freed(), out);
      } else {
        LandedIn(was, key, total, num, data, now, i, got, s, out);
      }
    }

    // bat_frag_purge: exactly the packets without a fragment for 10 s are given up.
    method Purge(now: u32)
      requires Valid()
      modifies slots
      ensures Valid() && Emptied(old(slots[..]), slots[..], (s: Slot) => Age(now, s.ts) > TIMEOUT_MS, SLOTS)
    {
      ghost var was := slots[..];
      ghost var gone := (s: Slot) => Age(now, s.ts) > TIMEOUT_MS;
      hide Slot.Ok, Table, Slot.Freed, Age;
      for i := 0 to SLOTS
        invariant slots.Length == SLOTS && Table(slots[..]) && Emptied(was, slots[..], gone, i)
      {
        ghost var mid := slots[..];
        EmptyNext(was, mid, gone, i);
        if slots[i].used && Age(now, slots[i].ts) > TIMEOUT_MS {
          slots[i] := slots[i].Freed();
        }
        assert slots[..] == mid[i := slots[i]];
      }
    }

    // bat_frag_orig_gone: exactly the originator's packets are given up.
    method OrigGone(orig: nat)
      requires Valid()
      modifies slots
      ensures Valid() && Emptied(old(slots[..]), slots[..], (s: Slot) => s.key.orig == orig, SLOTS)
    {
      ghost var was := slots[..];
      ghost var gone := (s: Slot) => s.key.orig == orig;
      hide Slot.Ok, Table, Slot.Freed;
      for i := 0 to SLOTS
        invariant slots.Length == SLOTS && Table(slots[..]) && Emptied(was, slots[..], gone, i)
      {
        ghost var mid := slots[..];
        EmptyNext(was, mid, gone, i);
        if slots[i].used && slots[i].key.orig == orig {
          slots[i] := slots[i].Freed();
        }
        assert slots[..] == mid[i := slots[i]];
      }
    }
  }

  // What the slots become when those that meet a condition are emptied.
  ghost predicate Emptied(was: seq<Slot>, slots: seq<Slot>, gone: Slot -> bool, n: nat) {
    && |was| == |slots| == SLOTS
    && forall j :: 0 <= j < SLOTS ==>
         slots[j] == if j < n && was[j].used && gone(was[j]) then was[j].Freed() else was[j]
  }

  lemma EmptyNext(was: seq<Slot>, slots: seq<Slot>, gone: Slot -> bool, i: nat)
    requires Emptied(was, slots, gone, i) && i < SLOTS && Table(slots)
    ensures
      var s := if slots[i].used && gone(slots[i]) then slots[i].Freed() else slots[i];
      Table(slots[i := s]) && Emptied(was, slots[i := s], gone, i + 1)
  {
    FreedIsOk(slots[i]);
    hide Slot.Ok, Slot.Freed;
  }

  lemma JoinStep(s: Slot, k: nat, out: Bytes)
    requires s.Bounded() && 0 < k <= MAX_N
    ensures
      var p := s.piece[k - 1];
      if p.used then
        p.off + p.len <= |s.buf| && out + Join(s.Got(), k) == out + s.buf[p.off..p.off + p.len] + Join(s.Got(), k - 1)
      else Join(s.Got(), k) == Join(s.Got(), k - 1)
  {
    if s.piece[k - 1].used {
      var d := s.Got()[k - 1];
      assert Join(s.Got(), k) == d + Join(s.Got(), k - 1);
      hide Slot.Got, Join;
      assert out + (d + Join(s.Got(), k - 1)) == out + d + Join(s.Got(), k - 1);
    }
  }

  lemma JoinNone(got: Pieces)
    ensures Join(got, 0) == [] && [] + Join(got, MAX_N) == Join(got, MAX_N)
  {
  }

  // Every slot holds another originator's packet, none idle for more than a second.
  ghost predicate AllLive(slots: seq<Slot>, key: Key, now: u32) {
    forall j :: 0 <= j < |slots| ==>
      slots[j].used && slots[j].key.orig != key.orig && Age(now, slots[j].ts) <= STEAL_MS
  }

  // A piece of another total, a second copy, or one too long for what is missing.
  lemma RejectIsReceive(s: Slot, total: u16, num: nat, data: Bytes)
    requires s.Ok() && s.used && num < MAX_N
    requires s.total != total || s.piece[num].used || s.have + |data| > total
    ensures var keep := s.total == total && s.piece[num].used;
      Receive(s.View(), total, num, data) == (if keep then s.View() else None, None)
    ensures s.Freed().Ok() && s.Freed().View() == None
  {
    FreedIsOk(s);
  }

  lemma StoreIsReceive(s: Slot, key: Key, total: u16, num: nat, data: Bytes, now: u32)
    requires s.Ok() && num < MAX_N && 0 < |data| <= total <= BUF
    requires s.used ==> s.key == key && s.total == total && !s.piece[num].used && s.have + |data| <= total
    ensures
      var s0 := if s.used then s else s.Fresh(key, total);
      && s0.Bounded() && s0.have + |data| <= total
      && var s' := s0.Store(num, data, now);
      && s'.used && s'.key == key && s'.ts == now && !(s.used && s.Holds(num)) && s'.total == total && s'.Bounded()
      && if s'.have == total
         then s'.Freed().Ok() && s'.Freed().View() == None
              && Receive(s.View(), total, num, data) == (None, Some(Join(s'.Got(), MAX_N)))
         else s'.Ok() && Receive(s.View(), total, num, data) == (s'.View(), None)
  {
    var s0 := if s.used then s else s.Fresh(key, total);
    assert s0.Got() == s.Got();
    assert !s.used ==> s.Got() == map[];
    StoreAddsPiece(s0, num, data, now);
    FreedIsOk(s0.Store(num, data, now));
    hide Slot.Got, Join, Size, Slot.Tiled, Slot.Store;
  }

  lemma SlotForLands(was: seq<Slot>, key: Key, now: u32, i: nat, slots: seq<Slot>)
    requires Table(was) && Table(slots) && SlotFor(was, key, now, i, slots)
    ensures slots[i].Ok() && (slots[i].used ==> slots[i].key == key)
  {
  }

  // The slot found, now holding s.
  lemma LandedIn(was: seq<Slot>, key: Key, total: u16, num: nat, data: Bytes, now: u32,
                 i: nat, slots: seq<Slot>, s: Slot, out: Option<Bytes>)
    requires Table(was) && Table(slots) && SlotFor(was, key, now, i, slots) && s.Ok()
    requires s.used ==> s.key == key && s.ts == if slots[i].used && slots[i].Holds(num) then slots[i].ts else now
    requires Receive(slots[i].View(), total, num, data) == (s.View(), out)
    ensures Table(slots[i := s]) && Landed(was, key, total, num, data, now, i, slots[i := s], out)
  {
  }

  // What the scan of slot_get leaves: the fragment's own slot, a free one, a freed one, or none.
  ghost predicate SlotFor(slots: seq<Slot>, key: Key, now: u32, i: int, slots': seq<Slot>) {
    && |slots| == |slots'| == SLOTS && -1 <= i < SLOTS
    && if i == -1 then
         slots' == slots && AllLive(slots, key, now)
       else if slots[i].Is(key) then slots' == slots
       else
         && Absent(slots, key) && MayTake(slots, i, key, now)
         && slots'[i] == (if slots[i].used then slots[i].Freed() else slots[i])
         && slots' == slots[i := slots'[i]]
  }

  ghost predicate Scanned(slots: seq<Slot>, key: Key, now: u32, k: nat, free: int, own: int, other: int)
    requires k <= |slots| && -1 <= free < k && -1 <= own < k && -1 <= other < k
  {
    && (forall j :: 0 <= j < k ==> !slots[j].Is(key))
    && (if free == -1 then forall j :: 0 <= j < k ==> slots[j].used else !slots[free].used)
    && (own != -1 ==> slots[own].used && slots[own].key.orig == key.orig)
    && (other != -1 ==> slots[other].used && slots[other].key.orig != key.orig)
    && (forall j :: 0 <= j < k && slots[j].used && slots[j].key.orig == key.orig ==>
          own != -1 && Age(now, slots[j].ts) <= Age(now, slots[own].ts))
    && (forall j :: 0 <= j < k && slots[j].used && slots[j].key.orig != key.orig ==>
          other != -1 && Age(now, slots[j].ts) <= Age(now, slots[other].ts))
  }

  lemma ScanNext(slots: seq<Slot>, key: Key, now: u32, k: nat, free: int, own: int, other: int)
    requires k < |slots| && -1 <= free < k && -1 <= own < k && -1 <= other < k
    requires Scanned(slots, key, now, k, free, own, other) && !(slots[k].used && slots[k].key == key)
    ensures
      var mine := slots[k].key.orig == key.orig;
      Scanned(slots, key, now, k + 1,
              if !slots[k].used && free == -1 then k else free,
              if slots[k].used && mine && (own == -1 || Age(now, slots[k].ts) > Age(now, slots[own].ts))
                 then k else own,
              if slots[k].used && !mine && (other == -1 || Age(now, slots[k].ts) > Age(now, slots[other].ts))
                 then k else other)
  {
  }

  lemma FoundIt(slots: seq<Slot>, key: Key, now: u32, k: nat)
    requires |slots| == SLOTS && k < SLOTS && slots[k].used && slots[k].key == key
    ensures SlotFor(slots, key, now, k, slots)
  {
  }

  lemma Chosen(slots: seq<Slot>, key: Key, now: u32, free: int, own: int, other: int)
    requires Table(slots) && -1 <= free < SLOTS && -1 <= own < SLOTS && -1 <= other < SLOTS
    requires Scanned(slots, key, now, SLOTS, free, own, other)
    ensures free != -1 ==> SlotFor(slots, key, now, free, slots)
    ensures free == -1 && own != -1 ==> FreedFor(slots, key, now, own)
    ensures free == -1 && own == -1 && other != -1 && Age(now, slots[other].ts) > STEAL_MS ==>
      FreedFor(slots, key, now, other)
    ensures free == -1 && own == -1 && !(other != -1 && Age(now, slots[other].ts) > STEAL_MS) ==>
      SlotFor(slots, key, now, -1, slots)
  {
    if own != -1 {
      FreedIsOk(slots[own]);
    }
    if other != -1 {
      FreedIsOk(slots[other]);
    }
    hide Slot.Ok, Slot.Freed, Age;
  }

  ghost predicate FreedFor(slots: seq<Slot>, key: Key, now: u32, i: nat) {
    && i < |slots| && SlotFor(slots, key, now, i, slots[i := slots[i].Freed()])
    && Table(slots[i := slots[i].Freed()])
  }

  // ---- one packet among other traffic -----------------------------------------------

  // A fragment, the purge at a time, and an originator's departure.
  datatype Event =
    | Fragment(key: Key, total: u16, num: nat, data: Bytes, now: u32, i: int, out: Option<Bytes>)
    | Purge(now: u32)
    | Depart(orig: nat)

  predicate Mine(e: Event, key: Key) {
    e.Fragment? && e.key == key
  }

  ghost predicate StepOf(slots: seq<Slot>, e: Event, slots': seq<Slot>) {
    && Table(slots) && Table(slots')
    && match e
       case Fragment(key, total, num, data, now, i, out) =>
         if Malformed(total, data) then i == -1 && slots' == slots && out == None
         else Landed(slots, key, total, num, data, now, i, slots', out) && (i == -1 ==> AllLive(slots, key, now))
       case Purge(now) => Emptied(slots, slots', (s: Slot) => Age(now, s.ts) > TIMEOUT_MS, SLOTS)
       case Depart(orig) => Emptied(slots, slots', (s: Slot) => s.key.orig == orig, SLOTS)
  }

  // Tables before, between and after the events of evs.
  ghost predicate Run(ts: seq<seq<Slot>>, evs: seq<Event>) {
    |ts| == |evs| + 1 && Table(ts[0]) && forall k :: 0 <= k < |evs| ==> StepOf(ts[k], evs[k], ts[k + 1])
  }

  // No fragment of key is refused, no other one takes its slot, no purge finds it idle too long,
  // and its originator stays.
  ghost predicate Kept(ts: seq<seq<Slot>>, evs: seq<Event>, key: Key)
    requires Run(ts, evs)
  {
    forall k :: 0 <= k < |evs| ==> KeptAt(ts[k], evs[k], key)
  }

  ghost predicate KeptAt(slots: seq<Slot>, e: Event, key: Key) {
    match e
    case Fragment(k, _, _, _, _, i, _) => if k == key then i != -1 else 0 <= i < |slots| ==> !slots[i].Is(key)
    case Purge(now) => forall j :: 0 <= j < |slots| && slots[j].Is(key) ==> Age(now, slots[j].ts) <= TIMEOUT_MS
    case Depart(orig) => forall j :: 0 <= j < |slots| && slots[j].Is(key) ==> orig != key.orig
  }

  // Every fragment of key is a piece of the packet.
  ghost predicate Carries(evs: seq<Event>, key: Key, pieces: seq<Bytes>, total: nat) {
    forall k :: 0 <= k < |evs| && Mine(evs[k], key) ==>
      evs[k].total == total && evs[k].num < |pieces| && evs[k].data == pieces[evs[k].num]
  }

  ghost function KeyView(slots: seq<Slot>, key: Key): Option<Partial>
    requires Table(slots)
  {
    if slots[0].Is(key) then slots[0].View()
    else if slots[1].Is(key) then slots[1].View()
    else if slots[2].Is(key) then slots[2].View()
    else None
  }

  function NumsOf(evs: seq<Event>, key: Key): (r: seq<nat>) {
    if evs == [] then []
    else
      var e := evs[|evs| - 1];
      NumsOf(evs[..|evs| - 1], key) + if Mine(e, key) then [e.num] else []
  }

  function OutsOf(evs: seq<Event>, key: Key): seq<Bytes> {
    if evs == [] then []
    else
      var e := evs[|evs| - 1];
      OutsOf(evs[..|evs| - 1], key) + if Mine(e, key) then AsSeq(e.out) else []
  }

  lemma ViewStep(slots: seq<Slot>, e: Event, slots': seq<Slot>, key: Key)
    requires StepOf(slots, e, slots') && KeptAt(slots, e, key)
    ensures !Mine(e, key) ==> KeyView(slots', key) == KeyView(slots, key)
    ensures Mine(e, key) ==>
      (KeyView(slots', key), e.out) == Receive(KeyView(slots, key), e.total, e.num, e.data)
  {
    hide Receive, Slot.Ok, Age;
    if e.Fragment? && e.i != -1 {
      assert forall j :: 0 <= j < SLOTS && j != e.i ==> slots'[j] == slots[j];
    }
  }

  lemma {:induction false} NumsBounded(evs: seq<Event>, key: Key, pieces: seq<Bytes>, total: nat)
    requires Carries(evs, key, pieces, total)
    ensures forall i :: 0 <= i < |NumsOf(evs, key)| ==> NumsOf(evs, key)[i] < |pieces|
  {
    if evs != [] {
      NumsBounded(evs[..|evs| - 1], key, pieces, total);
    }
  }

  // Whatever else happens in between, a packet whose slot is neither taken nor given up sees its
  // own fragments only.
  lemma {:induction false} Interleaved(ts: seq<seq<Slot>>, evs: seq<Event>, key: Key, pieces: seq<Bytes>, total: nat)
    requires Run(ts, evs) && Kept(ts, evs, key) && Carries(evs, key, pieces, total)
    requires Absent(ts[0], key)
    ensures forall i :: 0 <= i < |NumsOf(evs, key)| ==> NumsOf(evs, key)[i] < |pieces|
    ensures Table(ts[|evs|])
    ensures (KeyView(ts[|evs|], key), OutsOf(evs, key)) == Deliver(pieces, total, NumsOf(evs, key))
  {
    NumsBounded(evs, key, pieces, total);
    if evs == [] {
      NothingYet(ts[0], key);
    } else {
      var n := |evs| - 1;
      RunPrefix(ts, evs, key, pieces, total);
      KeptPrefix(ts, evs, key);
      hide *;
      Interleaved(ts[..n + 1], evs[..n], key, pieces, total);
      ViewStep(ts[n], evs[n], ts[n + 1], key);
      LastEvent(evs, key);
      if Mine(evs[n], key) {
        DeliverLast(pieces, total, NumsOf(evs, key));
      }
    }
  }

  lemma NothingYet(slots: seq<Slot>, key: Key)
    requires Table(slots) && Absent(slots, key)
    ensures KeyView(slots, key) == None
  {
  }

  lemma RunPrefix(ts: seq<seq<Slot>>, evs: seq<Event>, key: Key, pieces: seq<Bytes>, total: nat)
    requires evs != [] && Run(ts, evs) && Carries(evs, key, pieces, total)
    ensures
      var n := |evs| - 1;
      && |ts| == n + 2
      && Run(ts[..n + 1], evs[..n]) && Carries(evs[..n], key, pieces, total)
      && StepOf(ts[n], evs[n], ts[n + 1])
      && Table(ts[n]) && Table(ts[n + 1]) && ts[..n + 1][n] == ts[n] && ts[..n + 1][0] == ts[0]
      && (Mine(evs[n], key) ==>
            evs[n].total == total && evs[n].num < |pieces| && evs[n].data == pieces[evs[n].num])
  {
    var n := |evs| - 1;
    hide Table, Landed;
    assert forall k :: 0 <= k < n ==> StepOf(ts[k], evs[k], ts[k + 1]);
  }

  lemma KeptPrefix(ts: seq<seq<Slot>>, evs: seq<Event>, key: Key)
    requires evs != [] && Run(ts, evs)
    ensures
      var n := |evs| - 1;
      && |ts| == n + 2 && Run(ts[..n + 1], evs[..n])
      && (Kept(ts, evs, key) <==> Kept(ts[..n + 1], evs[..n], key) && KeptAt(ts[n], evs[n], key))
  {
    var n := |evs| - 1;
    hide Table, Landed, KeptAt;
    assert forall k :: 0 <= k < n ==> StepOf(ts[k], evs[k], ts[k + 1]);
    assert Kept(ts, evs, key) ==> forall k :: 0 <= k < n ==> KeptAt(ts[k], evs[k], key);
    assert Kept(ts[..n + 1], evs[..n], key) ==> forall k :: 0 <= k < n ==> KeptAt(ts[..n + 1][k], evs[..n][k], key);
  }

  lemma LastEvent(evs: seq<Event>, key: Key)
    requires evs != []
    ensures
      var n := |evs| - 1;
      var before := NumsOf(evs[..n], key);
      if Mine(evs[n], key) then
        && NumsOf(evs, key) == before + [evs[n].num] && NumsOf(evs, key)[..|before|] == before
        && OutsOf(evs, key) == OutsOf(evs[..n], key) + AsSeq(evs[n].out)
      else NumsOf(evs, key) == before && OutsOf(evs, key) == OutsOf(evs[..n], key)
  {
  }

  // End to end: a packet split by its sender and received in any order, with repetitions,
  // among any other fragments, purges and departures, comes out once and whole when its last piece lands.
  lemma DeliveredWhole(ts: seq<seq<Slot>>, evs: seq<Event>, key: Key, pkt: Bytes, hardMtu: nat)
    requires pkt != [] && hardMtu >= MIN_MTU && |Split(pkt, hardMtu)| <= MAX_N
    requires Run(ts, evs) && Kept(ts, evs, key) && Carries(evs, key, Split(pkt, hardMtu), |pkt|)
    requires Absent(ts[0], key) && NumsOf(evs, key) != []
    requires
      var nums := NumsOf(evs, key);
      Numbers(nums[..|nums| - 1]) < Numbers(nums) == Counting.Upto(|Split(pkt, hardMtu)|)
    ensures OutsOf(evs, key) == [pkt]
    ensures Table(ts[|evs|]) && KeyView(ts[|evs|], key) == None
  {
    Interleaved(ts, evs, key, Split(pkt, hardMtu), |pkt|);
    RoundTrip(pkt, hardMtu, NumsOf(evs, key));
  }

  // ---- in true time ------------------------------------------------------------------

  // The events' true times, in order; the clock they read is 32 bits wide.
  ghost predicate Timed(evs: seq<Event>, at: seq<int>) {
    && |at| == |evs|
    && (forall j, k :: 0 <= j <= k < |evs| ==> at[j] <= at[k])
    && (forall k :: 0 <= k < |evs| && !evs[k].Depart? ==> evs[k].now == Wrap32(at[k]))
  }

  // When the last new piece of key came.
  ghost function Since(evs: seq<Event>, at: seq<int>, key: Key): int
    requires |at| == |evs|
  {
    if evs == [] then 0
    else
      var n := |evs| - 1;
      if Mine(evs[n], key) && evs[n].num !in NumsOf(evs[..n], key) then at[n] else Since(evs[..n], at[..n], key)
  }

  // Some of count pieces have come, but not all.
  ghost predicate Open(nums: seq<nat>, count: nat) {
    nums != [] && Numbers(nums) != Counting.Upto(count)
  }

  // What is asked of the traffic only: nothing more of the packet once it is whole, a place for
  // its first fragment, and while it is open no other packet of its originator that needs its
  // slot; fragments of others up to a second, and purges up to ten, after its last new piece.
  ghost predicate CalmAt(slots: seq<Slot>, e: Event, t: int, key: Key, nums: seq<nat>, count: nat, since: int) {
    match e
    case Fragment(k, _, _, _, _, i, _) =>
      if k == key then if nums == [] then i != -1 else Open(nums, count)
      else if k.orig == key.orig then Open(nums, count) && 0 <= i < |slots| ==> !slots[i].Is(key)
      else Open(nums, count) ==> t <= since + STEAL_MS
    case Purge(_) => Open(nums, count) ==> t <= since + TIMEOUT_MS
    case Depart(orig) => Open(nums, count) ==> orig != key.orig
  }

  ghost predicate Calm(ts: seq<seq<Slot>>, evs: seq<Event>, at: seq<int>, key: Key, count: nat) {
    && |ts| == |evs| + 1 && |at| == |evs|
    && forall k :: 0 <= k < |evs| ==>
         CalmAt(ts[k], evs[k], at[k], key, NumsOf(evs[..k], key), count, Since(evs[..k], at[..k], key))
  }

  // The slot of key shows when its last new piece came.
  ghost predicate Stamped(slots: seq<Slot>, key: Key, since: int) {
    forall j :: 0 <= j < |slots| && slots[j].Is(key) ==> slots[j].ts == Wrap32(since)
  }

  lemma CalmPrefix(ts: seq<seq<Slot>>, evs: seq<Event>, at: seq<int>, key: Key, count: nat)
    requires evs != [] && Timed(evs, at) && Calm(ts, evs, at, key, count)
    ensures
      var n := |evs| - 1;
      && Timed(evs[..n], at[..n]) && Calm(ts[..n + 1], evs[..n], at[..n], key, count)
      && CalmAt(ts[n], evs[n], at[n], key, NumsOf(evs[..n], key), count, Since(evs[..n], at[..n], key))
  {
    var n := |evs| - 1;
    hide CalmAt;
    forall k | 0 <= k < n
      ensures CalmAt(ts[..n + 1][k], evs[..n][k], at[..n][k], key, NumsOf(evs[..n][..k], key), count,
                     Since(evs[..n][..k], at[..n][..k], key))
    {
      assert evs[..n][..k] == evs[..k] && at[..n][..k] == at[..k];
    }
  }

  // Before the last fragment of key the packet was not whole.
  lemma {:induction false} NotYetWhole(ts: seq<seq<Slot>>, evs: seq<Event>, at: seq<int>, key: Key, count: nat)
    requires Timed(evs, at) && Calm(ts, evs, at, key, count) && count > 0
    ensures var nums := NumsOf(evs, key); nums != [] ==> Numbers(nums[..|nums| - 1]) != Counting.Upto(count)
  {
    if evs != [] {
      var n := |evs| - 1;
      CalmPrefix(ts, evs, at, key, count);
      LastEvent(evs, key);
      var nums := NumsOf(evs[..n], key);
      if Mine(evs[n], key) {
        if nums == [] {
          assert 0 in Counting.Upto(count);
          assert 0 !in Numbers(nums);
        }
      } else {
        NotYetWhole(ts[..n + 1], evs[..n], at[..n], key, count);
      }
    }
  }

  lemma {:induction false} SinceIsPast(evs: seq<Event>, at: seq<int>, key: Key)
    requires Timed(evs, at) && NumsOf(evs, key) != []
    ensures exists k :: 0 <= k < |evs| && Since(evs, at, key) == at[k]
  {
    var n := |evs| - 1;
    if Mine(evs[n], key) && evs[n].num !in NumsOf(evs[..n], key) {
      assert Since(evs, at, key) == at[n];
    } else {
      LastEvent(evs, key);
      SinceIsPast(evs[..n], at[..n], key);
      var k :| 0 <= k < n && Since(evs[..n], at[..n], key) == at[..n][k];
      assert Since(evs, at, key) == at[k];
    }
  }

  // Nobody else's fragment, no purge and no departure takes an open packet whose slot shows a
  // true time so near.
  lemma CalmKeeps(slots: seq<Slot>, e: Event, slots': seq<Slot>, t: int, key: Key, nums: seq<nat>, count: nat,
                  since: int)
    requires StepOf(slots, e, slots') && CalmAt(slots, e, t, key, nums, count, since)
    requires Mine(e, key) ==> !Malformed(e.total, e.data)
    requires !e.Depart? ==> e.now == Wrap32(t)
    requires if Open(nums, count) then Stamped(slots, key, since) && since <= t && !Absent(slots, key)
             else Absent(slots, key)
    ensures KeptAt(slots, e, key)
  {
    hide Slot.Ok, Receive, Age, Wrap32, Numbers, Counting.Upto;
    if Open(nums, count) && t <= since + TIMEOUT_MS {
      AgeExact(t, since);
    }
  }

  lemma StampMoves(slots: seq<Slot>, e: Event, slots': seq<Slot>, t: int, key: Key, since: int, held: bool)
    requires StepOf(slots, e, slots') && KeptAt(slots, e, key)
    requires Mine(e, key) ==> e.now == Wrap32(t)
    requires Mine(e, key) ==> (held <==> exists j :: 0 <= j < |slots| && slots[j].Is(key) && slots[j].Holds(e.num))
    requires Absent(slots, key) || Stamped(slots, key, since)
    ensures Absent(slots', key) || Stamped(slots', key, if Mine(e, key) && !held then t else since)
  {
    hide Slot.Ok, Receive, Age, Wrap32, MayTake;
  }

  // The view of a key's slot names the pieces it holds.
  lemma HeldAt(slots: seq<Slot>, key: Key, j: nat)
    requires Table(slots) && j < SLOTS && slots[j].Is(key)
    ensures forall i :: 0 <= i < SLOTS && slots[i].Is(key) ==> i == j
    ensures KeyView(slots, key).Some?
    ensures forall num: nat :: num in KeyView(slots, key).value.got <==> slots[j].Holds(num)
  {
    assert slots[j].Bounded();
    assert KeyView(slots, key) == slots[j].View();
    hide Slot.Tiled;
  }

  lemma ViewIs(slots: seq<Slot>, key: Key, pkt: Bytes, pieces: seq<Bytes>, seen: set<nat>)
    requires Table(slots) && KeyView(slots, key) == Seen(pkt, pieces, seen).0 && seen <= Counting.Upto(|pieces|)
    ensures Absent(slots, key) <==> seen == {} || seen == Counting.Upto(|pieces|)
    ensures
      !Absent(slots, key) ==>
        forall num: nat :: num in seen <==> exists j :: 0 <= j < |slots| && slots[j].Is(key) && slots[j].Holds(num)
  {
    SeenSays(pkt, pieces, seen);
    hide Table, KeyView, Slot.Holds, Slot.Is, Seen, Part, Counting.Upto;
    if Absent(slots, key) {
      NothingYet(slots, key);
    } else {
      assert |slots| == SLOTS;
      var j :| 0 <= j < SLOTS && slots[j].Is(key);
      HeldAt(slots, key, j);
      assert forall num: nat :: num in seen <==> slots[j].Holds(num);
    }
  }

  lemma SeenSays(pkt: Bytes, pieces: seq<Bytes>, seen: set<nat>)
    requires seen <= Counting.Upto(|pieces|)
    ensures Seen(pkt, pieces, seen).0 == None <==> seen == {} || seen == Counting.Upto(|pieces|)
    ensures
      Seen(pkt, pieces, seen).0.Some? ==> forall num: nat :: num in Seen(pkt, pieces, seen).0.value.got <==> num in seen
  {
  }

  // What a key's slot holds after a run that keeps it.
  lemma SoFar(ts: seq<seq<Slot>>, evs: seq<Event>, at: seq<int>, key: Key, pkt: Bytes, pieces: seq<Bytes>,
              cuts: seq<nat>)
    requires Cutting(pkt, pieces, cuts) && Timed(evs, at) && Calm(ts, evs, at, key, |pieces|)
    requires Run(ts, evs) && Kept(ts, evs, key) && Carries(evs, key, pieces, |pkt|) && Absent(ts[0], key)
    ensures Absent(ts[|evs|], key) <==> !Open(NumsOf(evs, key), |pieces|)
    ensures
      !Absent(ts[|evs|], key) ==>
        forall num: nat :: num in NumsOf(evs, key) <==>
          exists j :: 0 <= j < |ts[|evs|]| && ts[|evs|][j].Is(key) && ts[|evs|][j].Holds(num)
    ensures
      OutsOf(evs, key) ==
        if NumsOf(evs, key) != [] && Numbers(NumsOf(evs, key)) == Counting.Upto(|pieces|) then [pkt] else []
  {
    var nums := NumsOf(evs, key);
    Interleaved(ts, evs, key, pieces, |pkt|);
    NotYetWhole(ts, evs, at, key, |pieces|);
    AnyOrder(pkt, pieces, cuts, nums);
    NumsAre(nums, |pieces|);
    hide *;
    ViewIs(ts[|evs|], key, pkt, pieces, Numbers(nums));
  }

  lemma NumsAre(nums: seq<nat>, n: nat)
    requires forall i :: 0 <= i < |nums| ==> nums[i] < n
    ensures Numbers(nums) <= Counting.Upto(n) && (Numbers(nums) == {} <==> nums == [])
    ensures forall k :: k in Numbers(nums) <==> k in nums
  {
    assert nums != [] ==> nums[0] in Numbers(nums);
  }

  // A packet's pieces arriving in time keep its slot: within a second of the last new one no
  // other originator takes it, within ten no purge gives it up.
  lemma {:induction false} InTimeIsKept(ts: seq<seq<Slot>>, evs: seq<Event>, at: seq<int>, key: Key, pkt: Bytes,
                                        pieces: seq<Bytes>, cuts: seq<nat>)
    requires Cutting(pkt, pieces, cuts) && |pkt| <= BUF
    requires Run(ts, evs) && Timed(evs, at) && Carries(evs, key, pieces, |pkt|) && Absent(ts[0], key)
    requires Calm(ts, evs, at, key, |pieces|)
    ensures Kept(ts, evs, key) && Table(ts[|evs|])
    ensures
      var nums := NumsOf(evs, key);
      if Open(nums, |pieces|) then !Absent(ts[|evs|], key) && Stamped(ts[|evs|], key, Since(evs, at, key))
      else Absent(ts[|evs|], key)
  {
    NotMalformed(pkt, pieces, cuts);
    if evs == [] {
      assert Kept(ts, evs, key);
    } else {
      var n := |evs| - 1;
      RunPrefix(ts, evs, key, pieces, |pkt|);
      CalmPrefix(ts, evs, at, key, |pieces|);
      KeptPrefix(ts, evs, key);
      LastEvent(evs, key);
      var nums, since := NumsOf(evs[..n], key), Since(evs[..n], at[..n], key);
      assert since <= at[n] || nums == [] by {
        if nums != [] {
          SinceIsPast(evs[..n], at[..n], key);
        }
      }
      assert Mine(evs[n], key) ==> !Malformed(evs[n].total, evs[n].data) && evs[n].now == Wrap32(at[n]);
      assert !evs[n].Depart? ==> evs[n].now == Wrap32(at[n]);
      assert Since(evs, at, key) == if Mine(evs[n], key) && evs[n].num !in nums then at[n] else since;
      hide *;
      InTimeIsKept(ts[..n + 1], evs[..n], at[..n], key, pkt, pieces, cuts);
      SoFar(ts[..n + 1], evs[..n], at[..n], key, pkt, pieces, cuts);
      CalmKeeps(ts[n], evs[n], ts[n + 1], at[n], key, nums, |pieces|, since);
      SoFar(ts, evs, at, key, pkt, pieces, cuts);
      NowStamped(ts[n], evs[n], ts[n + 1], at[n], key, nums, since);
    }
  }

  lemma NotMalformed(pkt: Bytes, pieces: seq<Bytes>, cuts: seq<nat>)
    requires Cutting(pkt, pieces, cuts) && |pkt| <= BUF
    ensures forall num: nat :: num < |pieces| ==> 0 < |pieces[num]| <= |pkt| && !Malformed(|pkt|, pieces[num])
  {
    forall num: nat | num < |pieces|
      ensures 0 < |pieces[num]| <= |pkt|
    {
      assert CutAt(pkt, pieces, cuts, num);
    }
  }

  lemma NowStamped(slots: seq<Slot>, e: Event, slots': seq<Slot>, t: int, key: Key, nums: seq<nat>, since: int)
    requires StepOf(slots, e, slots') && KeptAt(slots, e, key)
    requires Mine(e, key) ==> e.now == Wrap32(t)
    requires Absent(slots, key) || Stamped(slots, key, since)
    requires
      !Absent(slots, key) ==>
        forall num: nat :: num in nums <==> exists j :: 0 <= j < |slots| && slots[j].Is(key) && slots[j].Holds(num)
    requires Absent(slots, key) && Mine(e, key) ==> nums == []
    ensures Absent(slots', key) || Stamped(slots', key, if Mine(e, key) && e.num !in nums then t else since)
  {
    hide StepOf, KeptAt, Stamped, Slot.Holds;
    if Mine(e, key) {
      var held := exists j :: 0 <= j < |slots| && slots[j].Is(key) && slots[j].Holds(e.num);
      StampMoves(slots, e, slots', t, key, since, held);
    } else {
      StampMoves(slots, e, slots', t, key, since, false);
    }
  }

  // End to end in true time: the pieces of a packet, arriving in any order and with repetitions
  // among calm traffic, bring it out once and whole with the last missing one.
  lemma DeliveredInTime(ts: seq<seq<Slot>>, evs: seq<Event>, at: seq<int>, key: Key, pkt: Bytes, hardMtu: nat)
    requires 0 < |pkt| <= BUF && hardMtu >= MIN_MTU && |Split(pkt, hardMtu)| <= MAX_N
    requires Run(ts, evs) && Timed(evs, at) && Carries(evs, key, Split(pkt, hardMtu), |pkt|) && Absent(ts[0], key)
    requires Calm(ts, evs, at, key, |Split(pkt, hardMtu)|)
    ensures
      var nums := NumsOf(evs, key);
      OutsOf(evs, key) == if nums != [] && Numbers(nums) == Counting.Upto(|Split(pkt, hardMtu)|) then [pkt] else []
    ensures Absent(ts[|evs|], key) <==> !Open(NumsOf(evs, key), |Split(pkt, hardMtu)|)
  {
    var cuts := SplitCuts(pkt, hardMtu);
    hide Split, Numbers, Counting.Upto;
    InTimeIsKept(ts, evs, at, key, pkt, Split(pkt, hardMtu), cuts);
    SoFar(ts, evs, at, key, pkt, Split(pkt, hardMtu), cuts);
  }

  // And one with no new piece for over ten seconds is given up by the next purge, exactly then.
  lemma GivenUp(slots: seq<Slot>, slots': seq<Slot>, key: Key, since: int, t: int)
    requires Table(slots) && Stamped(slots, key, since) && !Absent(slots, key) && since <= t < since + TWO32
    requires StepOf(slots, Purge(Wrap32(t)), slots')
    ensures Absent(slots', key) <==> t > since + TIMEOUT_MS
  {
    AgeExact(t, since);
    hide Slot.Ok, Age, Wrap32;
    var j :| 0 <= j < |slots| && slots[j].Is(key);
    assert slots'[j] == slots[j] || slots'[j] == slots[j].Freed();
  }
}
