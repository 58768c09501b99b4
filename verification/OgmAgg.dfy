// Aggregated OGM records, byte by byte (main/bat/bat_ogm.c): records are queued behind each
// other, flushed as one frame, and walked apart again by the receiver.
module OgmAgg {
  import opened Words

  const PT_OGM2 := 0x04
  const COMPAT := 15
  const TTL_INIT := 50
  const OFF_TTL := 2
  const OFF_SEQ := 4
  const OFF_ORIG := 8
  const OFF_TVLV_LEN := 14
  const OFF_TPUT := 16
  const HLEN: int := 20
  const MAX_OWN: int := 512
  const AGG_BUF: int := 1536

  type Bytes = seq<u8>

  function Get16(p: Bytes, i: nat): u16
    requires i + 1 < |p|
  {
    var high: int := p[i];
    high * 256 + p[i + 1]
  }

  function Put16(x: u16): Bytes {
    [x / 256, x % 256]
  }

  function Get32(p: Bytes, i: nat): u32
    requires i + 3 < |p|
  {
    var high: int := Get16(p, i);
    high * 0x1_0000 + Get16(p, i + 2)
  }

  function Put32(x: u32): Bytes {
    Put16(x / 0x1_0000) + Put16(x % 0x1_0000)
  }

  // A record as its sender lays it out: its own length says where it ends.
  predicate IsRecord(r: Bytes) {
    |r| >= HLEN && r[0] == PT_OGM2 && r[1] == COMPAT && |r| == HLEN + Get16(r, OFF_TVLV_LEN)
  }

  // ---- the two kinds of record --------------------------------------------------------------

  // bat_ogm_own's
  function Own(seqno: u32, orig: Bytes, tvlvs: Bytes): Bytes
    requires |tvlvs| <= 0xFFFF
  {
    [PT_OGM2, COMPAT, TTL_INIT, 0] + Put32(seqno) + orig + Put16(|tvlvs|) + Put32(0xFFFF_FFFF) + tvlvs
  }

  // forward's: TTL and throughput rewritten.
  function Onward(r: Bytes, tput: u32): Bytes
    requires IsRecord(r) && r[OFF_TTL] > 0
  {
    r[..OFF_TTL] + [r[OFF_TTL] - 1] + r[OFF_TTL + 1..OFF_TPUT] + Put32(tput) + r[HLEN..]
  }

  lemma Put32Gets(p: Bytes, i: nat, x: u32)
    requires i + 3 < |p| && p[i..i + 4] == Put32(x)
    ensures Get32(p, i) == x
  {
    var h := x / 0x1_0000;
    assert p[i..i + 4][0] == h / 256 && p[i..i + 4][1] == h % 256;
    assert p[i..i + 4][2] == x % 0x1_0000 / 256 && p[i..i + 4][3] == x % 0x1_0000 % 256;
  }

  // An own record reads back as what went in, at the largest throughput.
  lemma OwnReadsBack(seqno: u32, orig: Bytes, tvlvs: Bytes)
    requires |orig| == 6 && |tvlvs| <= 0xFFFF
    ensures
      var r := Own(seqno, orig, tvlvs);
      IsRecord(r) && r[OFF_TTL] == TTL_INIT && Get32(r, OFF_SEQ) == seqno && r[OFF_ORIG..OFF_TVLV_LEN] == orig
      && Get32(r, OFF_TPUT) == 0xFFFF_FFFF && r[HLEN..] == tvlvs
  {
    var r := Own(seqno, orig, tvlvs);
    assert r[OFF_TVLV_LEN] == |tvlvs| / 256 && r[OFF_TVLV_LEN + 1] == |tvlvs| % 256;
    assert r[OFF_SEQ..OFF_SEQ + 4] == Put32(seqno) && r[OFF_TPUT..OFF_TPUT + 4] == Put32(0xFFFF_FFFF);
    hide Get32, Put32;
    Put32Gets(r, OFF_SEQ, seqno);
    Put32Gets(r, OFF_TPUT, 0xFFFF_FFFF);
  }

  // A record sent on differs in its TTL, one lower, and its throughput.
  lemma OnwardReadsBack(r: Bytes, tput: u32)
    requires IsRecord(r) && r[OFF_TTL] > 0
    ensures
      var q := Onward(r, tput);
      IsRecord(q) && |q| == |r| && q[OFF_TTL] == r[OFF_TTL] - 1 && Get32(q, OFF_TPUT) == tput
      && Get32(q, OFF_SEQ) == Get32(r, OFF_SEQ) && q[OFF_ORIG..OFF_TPUT] == r[OFF_ORIG..OFF_TPUT]
       && q[HLEN..] == r[HLEN..]
  {
    var q := Onward(r, tput);
    assert forall i :: 0 <= i < |r| && i != OFF_TTL && !(OFF_TPUT <= i < HLEN) ==> q[i] == r[i];
    assert q[OFF_TPUT..OFF_TPUT + 4] == Put32(tput);
    Put32Gets(q, OFF_TPUT, tput);
  }

  // ---- joining and parting -----------------------------------------------------------------

  function Joined(rs: seq<Bytes>): Bytes {
    if rs == [] then [] else rs[0] + Joined(rs[1..])
  }

  ghost predicate Records(rs: seq<Bytes>) {
    forall i :: 0 <= i < |rs| ==> IsRecord(rs[i])
  }

  datatype End = Clean | BadRec | Overrun

  datatype Parsed = Parsed(rs: seq<Bytes>, end: End)

  // What bat_ogm_rx takes out of the rest of a frame; first: nothing came before it.
  function Parse(p: Bytes, first: bool): (r: Parsed)
    decreases |p|
  {
    if |p| < HLEN then Parsed([], Clean)
    else if !first && (p[0] != PT_OGM2 || p[1] != COMPAT) then Parsed([], BadRec)
    else
      var rl := HLEN + Get16(p, OFF_TVLV_LEN);
      if rl > |p| then Parsed([], Overrun)
      else
        var rest := Parse(p[rl..], false);
        Parsed([p[..rl]] + rest.rs, rest.end)
  }

  lemma {:induction false} RoundTrip(rs: seq<Bytes>, first: bool)
    requires Records(rs)
    ensures Parse(Joined(rs), first) == Parsed(rs, Clean)
  {
    if rs != [] {
      RoundTrip(rs[1..], false);
      var p, r := Joined(rs), rs[0];
      assert p[OFF_TVLV_LEN] == r[OFF_TVLV_LEN] && p[OFF_TVLV_LEN + 1] == r[OFF_TVLV_LEN + 1];
      assert p[..|r|] == r && p[|r|..] == Joined(rs[1..]);
      assert [r] + rs[1..] == rs;
    }
  }

  lemma ParseOne(p: Bytes, first: bool)
    requires |p| >= HLEN && (first || (p[0] == PT_OGM2 && p[1] == COMPAT))
    requires HLEN + Get16(p, OFF_TVLV_LEN) <= |p|
    ensures
      var rl := HLEN + Get16(p, OFF_TVLV_LEN);
      var out, rest := Parse(p, first), Parse(p[rl..], false);
      out == Parsed([p[..rl]] + rest.rs, rest.end) && out.rs[1..] == rest.rs
      && Joined(out.rs) == p[..rl] + Joined(rest.rs)
  {
    var rest := Parse(p[HLEN + Get16(p, OFF_TVLV_LEN)..], false);
    assert ([p[..HLEN + Get16(p, OFF_TVLV_LEN)]] + rest.rs)[1..] == rest.rs;
  }

  // From any frame: the records taken are its beginning, cut where each one says it ends, and
  // a frame is walked to its end unless a record is no OGM or runs past it.
  lemma {:induction false} ParsedIsPrefix(p: Bytes, first: bool)
    ensures
      var out := Parse(p, first);
      |Joined(out.rs)| <= |p| && Joined(out.rs) == p[..|Joined(out.rs)|]
      && (out.end == Clean ==> |p| - |Joined(out.rs)| < HLEN)
    decreases |p|
  {
    if |p| >= HLEN && (first || (p[0] == PT_OGM2 && p[1] == COMPAT)) && HLEN + Get16(p, OFF_TVLV_LEN) <= |p| {
      var rl := HLEN + Get16(p, OFF_TVLV_LEN);
      ParsedIsPrefix(p[rl..], false);
      ParseOne(p, first);
      hide Parse, Joined;
      var n := |Joined(Parse(p[rl..], false).rs)|;
      assert p[..rl] + p[rl..][..n] == p[..rl + n];
    }
  }

  // rs were taken from the first off bytes; the rest parts as it would alone.
  ghost predicate Taken(p: Bytes, off: nat, rs: seq<Bytes>) {
    off <= |p| && (off == 0 || off >= HLEN)
    && Parse(p, true) == Parsed(rs + Parse(p[off..], off == 0).rs, Parse(p[off..], off == 0).end)
  }

  lemma TakenNone(p: Bytes)
    ensures Taken(p, 0, [])
  {
    assert p[0..] == p;
  }

  lemma TakenOne(p: Bytes, off: nat, rs: seq<Bytes>)
    requires Taken(p, off, rs) && |p| - off >= HLEN
    requires off == 0 || (p[off] == PT_OGM2 && p[off + 1] == COMPAT)
    requires HLEN + Get16(p[off..], OFF_TVLV_LEN) <= |p| - off
    ensures
      var rl := HLEN + Get16(p[off..], OFF_TVLV_LEN);
      Taken(p, off + rl, rs + [p[off..off + rl]])
  {
    var rec := p[off..];
    var rl := HLEN + Get16(rec, OFF_TVLV_LEN);
    var rest := Parse(rec[rl..], false);
    assert p[off + rl..] == rec[rl..] && rec[..rl] == p[off..off + rl];
    assert Parse(rec, off == 0) == Parsed([rec[..rl]] + rest.rs, rest.end);
    hide Parse;
    assert rs + ([rec[..rl]] + rest.rs) == (rs + [rec[..rl]]) + rest.rs;
  }

  lemma TakenAll(p: Bytes, off: nat, rs: seq<Bytes>, end: End)
    requires Taken(p, off, rs) && Parse(p[off..], off == 0) == Parsed([], end)
    ensures Parse(p, true) == Parsed(rs, end)
  {
    hide Parse;
  }

  // bat_ogm_rx
  method OgmRx(p: Bytes) returns (rs: seq<Bytes>, end: End)
    ensures Parsed(rs, end) == Parse(p, true)
  {
    rs := [];
    var off := 0;
    TakenNone(p);
    hide Taken;
    while |p| - off >= HLEN
      invariant off <= |p| && Taken(p, off, rs)
    {
      if off > 0 && (p[off] != PT_OGM2 || p[off + 1] != COMPAT) {
        TakenAll(p, off, rs, BadRec);
        return rs, BadRec;
      }
      var rl := HLEN + Get16(p[off..], OFF_TVLV_LEN);
      if rl > |p| - off {
        TakenAll(p, off, rs, Overrun);
        return rs, Overrun;
      }
      TakenOne(p, off, rs);
      rs := rs + [p[off..off + rl]];
      off := off + rl;
    }
    TakenAll(p, off, rs, Clean);
    end := Clean;
  }

  // ---- the queue ------------------------------------------------------------------------

  lemma {:induction false} JoinedAppend(rs: seq<Bytes>, r: Bytes)
    ensures Joined(rs + [r]) == Joined(rs) + r
  {
    if rs == [] {
      assert [r][1..] == [];
    } else {
      JoinedAppend(rs[1..], r);
      assert (rs + [r])[1..] == rs[1..] + [r] && (rs + [r])[0] == rs[0];
      assert rs[0] + (Joined(rs[1..]) + r) == (rs[0] + Joined(rs[1..])) + r;
    }
  }

  // The frame a receiver parts into rs; two records or more keep to the cap.
  ghost predicate FrameOf(frame: Bytes, rs: seq<Bytes>, cap: nat) {
    && frame == Joined(rs) && rs != [] && Records(rs) && |frame| <= AGG_BUF
    && (|rs| >= 2 ==> |frame| <= cap)
  }

  function Flat(rss: seq<seq<Bytes>>): seq<Bytes> {
    if rss == [] then [] else Flat(rss[..|rss| - 1]) + rss[|rss| - 1]
  }

  // What went out in frames, and what waits, is what was queued, in order.
  ghost predicate InOrder(frames: seq<Bytes>, parts: seq<seq<Bytes>>, waiting: seq<Bytes>, all: seq<Bytes>, cap: nat) {
    && |parts| == |frames| && (forall i :: 0 <= i < |frames| ==> FrameOf(frames[i], parts[i], cap))
    && all == Flat(parts) + waiting
  }

  lemma FlushKeeps(frames: seq<Bytes>, parts: seq<seq<Bytes>>, waiting: seq<Bytes>, all: seq<Bytes>,
                   cap: nat, frame: Bytes)
    requires InOrder(frames, parts, waiting, all, cap) && FrameOf(frame, waiting, cap)
    ensures InOrder(frames + [frame], parts + [waiting], [], all, cap)
  {
    assert (parts + [waiting])[..|parts|] == parts;
    assert Flat(parts + [waiting]) == all && all + [] == all;
  }

  lemma QueueKeeps(frames: seq<Bytes>, parts: seq<seq<Bytes>>, waiting: seq<Bytes>, all: seq<Bytes>, cap: nat, r: Bytes)
    requires InOrder(frames, parts, waiting, all, cap)
    ensures InOrder(frames, parts, waiting + [r], all + [r], cap)
  {
    assert Flat(parts) + waiting + [r] == Flat(parts) + (waiting + [r]);
  }

  class Queue {
    const hardMtu: nat
    const aggregate: bool
    var agg: Bytes
    // The records waiting, those of every frame flushed, and all ever queued.
    ghost var waiting: seq<Bytes>
    ghost var frames: seq<Bytes>
    ghost var parts: seq<seq<Bytes>>
    ghost var all: seq<Bytes>

    ghost predicate Valid()
      reads this
    {
      && (waiting == [] ==> agg == [])
      && (waiting != [] ==> FrameOf(agg, waiting, Cap()))
      && InOrder(frames, parts, waiting, all, Cap())
    }

    // agg_cap
    function Cap(): (c: nat)
      ensures c <= hardMtu && c <= MAX_OWN
    {
      if hardMtu < MAX_OWN then hardMtu else MAX_OWN
    }

    constructor (mtu: nat, agg: bool)
      ensures Valid() && hardMtu == mtu && aggregate == agg && all == [] && waiting == []
    {
      hardMtu, aggregate := mtu, agg;
      this.agg := [];
      waiting, frames, parts, all := [], [], [], [];
    }

    // bat_ogm_flush: the frame handed to the link, if any.
    method Flush()
      requires Valid()
      modifies this
      ensures Valid() && waiting == [] && all == old(all)
      ensures
        frames == old(frames) + if old(waiting) == [] then [] else [Joined(old(waiting))]
      ensures parts == old(parts) + if old(waiting) == [] then [] else [old(waiting)]
    {
      if agg == [] {
        WaitingEmpty();
        return;
      }
      FlushKeeps(frames, parts, waiting, all, Cap(), agg);
      frames, parts := frames + [agg], parts + [waiting];
      agg, waiting := [], [];
    }

    lemma WaitingEmpty()
      requires Valid() && agg == []
      ensures waiting == []
    {
    }

    // ogm_queue, the copy and ogm_queued; a record over the buffer is refused.
    method Add(r: Bytes) returns (ok: bool)
      requires Valid() && IsRecord(r)
      modifies this
      ensures Valid() && ok == (|r| <= AGG_BUF)
      ensures all == old(all) + if ok then [r] else []
      ensures !ok ==> waiting == old(waiting) && frames == old(frames)
      ensures ok && aggregate ==>
                waiting == if old(waiting) != [] && |Joined(old(waiting))| + |r| > Cap()
                         then [r] else old(waiting) + [r]
      ensures ok && !aggregate ==> waiting == []
    {
      if |r| > AGG_BUF {
        return false;
      }
      if |agg| > 0 && |agg| + |r| > Cap() {
        Flush();
      }
      JoinedAppend(waiting, r);
      QueueKeeps(frames, parts, waiting, all, Cap(), r);
      agg, waiting, all := agg + r, waiting + [r], all + [r];
      if !aggregate {
        Flush();
      }
      ok := true;
    }

    // Every frame handed to the link is parted again into its records.
    lemma FramesPart(i: nat)
      requires Valid() && i < |frames|
      ensures Parse(frames[i], true) == Parsed(parts[i], Clean)
      ensures |frames[i]| <= AGG_BUF && (|parts[i]| >= 2 ==> |frames[i]| <= hardMtu && |frames[i]| <= MAX_OWN)
      ensures Flat(parts) + waiting == all
    {
      assert FrameOf(frames[i], parts[i], Cap());
      RoundTrip(parts[i], true);
    }
  }
}
