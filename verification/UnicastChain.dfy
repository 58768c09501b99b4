// What one received unicast-family packet makes a node send (main/bat/bat_unicast.c,
// bat_frag.c, bat_icmp.c, bat_utvlv.c, bat_core.c): relays, replies, answers, fragments.
// Whatever the routing tables say, every chain of such transmissions ends.
module UnicastChain {
  import opened Words
  import opened FragSplit

  const PT_UNICAST := 0x40
  const PT_FRAG := 0x41
  const PT_4ADDR := 0x42
  const PT_ICMP := 0x43
  const PT_UTVLV := 0x44
  const PT_LAST := 0x7F
  const COMPAT := 15
  const TTL_INIT := 50

  const UC_HLEN := 10
  const FOURADDR_HLEN := 18
  const IC_HLEN := 20
  const IC_RR_LEN: int := 116
  const IC_RR_SLOTS := 16
  const IC_RRCOUNT := 17
  const UT_HLEN := 20
  const TVLV_HLEN := 4
  const ETH_HLEN := 14

  const ECHO_REPLY := 0
  const ECHO_REQ := 8
  const TTL_EXC := 11

  const TVLV_TT := 4
  const TT_REQUEST := 2
  const TT_RESPONSE := 4
  const TT_FULL := 0x10
  const TT_VLAN_LEN := 8

  type Addr = a: Bytes | |a| == 6 witness [0, 0, 0, 0, 0, 0]

  datatype Option<T> = None | Some(value: T)

  // A frame on the air, without its link header. A fragment carries the packet it was cut
  // from: what reassembly gives back (FragSlots.DeliveredWhole).
  datatype Frame =
    | Direct(p: Bytes)
    | Piece(ttl: u8, dest: Addr, orig: Addr, f: Fragment, of: Bytes)

  // Everything else a node's decisions depend on, left arbitrary: its tables and versions.
  // resolve: the originator its translation table names for a client frame. table: the VLANs
  // and clients of a full answer.
  datatype Node = Node(own: Addr, mtu: nat, fragSeq: u16,
                       known: Addr -> bool, routeDefault: Addr -> bool, routeIface: Addr -> bool,
                       resolve: Bytes -> Option<Addr>, ownClient: Bytes -> bool,
                       ttvn: u8, ucTtvn: Addr -> u8, mayAnswer: Addr -> bool, table: Bytes)

  predicate Usable(n: Node) {
    n.mtu >= MIN_MTU && |n.table| + 2 + TVLV_HLEN <= 0xFFFF
  }

  function Get16(p: Bytes, i: nat): u16
    requires i + 1 < |p|
  {
    var high: int := p[i];
    high * 256 + p[i + 1]
  }

  function Put16(x: u16): Bytes {
    [x / 256, x % 256]
  }

  // ---- sending ----------------------------------------------------------------------------

  function Pieces(n: Node, dest: Addr, p: Bytes): seq<Frame>
    requires Usable(n) && p != []
  {
    var parts := Split(p, n.mtu);
    if |parts| > MAX_N || |p| > 0xFFFF then []
    else seq(|parts|, k requires 0 <= k < |parts| =>
           Piece(TTL_INIT, dest, n.own, Fragment(k, n.fragSeq, |p|, parts[k]), p))
  }

  // bat_send_to_orig, a next hop given.
  function SendTo(n: Node, dest: Addr, p: Bytes): seq<Frame>
    requires Usable(n) && p != []
  {
    if |p| <= n.mtu then [Direct(p)] else Pieces(n, dest, p)
  }

  function Dest(p: Bytes): Addr
    requires |p| >= UC_HLEN
  {
    p[4..10]
  }

  // bat_relay
  function Relay(n: Node, p: Bytes): seq<Frame>
    requires Usable(n) && |p| >= UC_HLEN
  {
    if p[2] < 2 || !n.known(Dest(p)) || !n.routeIface(Dest(p)) then []
    else SendTo(n, Dest(p), p[2 := p[2] - 1])
  }

  // ---- client frames ----------------------------------------------------------------------

  predicate TtvnOlder(x: u8, y: u8) {
    1 <= (y - x) % 256 <= 127
  }

  function Rerouted(n: Node, p: Bytes, o: Addr): Bytes
    requires |p| >= UC_HLEN
  {
    p[..3] + [n.ucTtvn(o)] + o + p[10..]
  }

  function HeaderLen(p: Bytes): nat
    requires p != []
  {
    if p[0] == PT_4ADDR then FOURADDR_HLEN else UC_HLEN
  }

  // The packet holds a client frame for a client that moved on since its version of our table.
  predicate Stale(n: Node, p: Bytes)
    requires p != [] && |p| >= HeaderLen(p) + ETH_HLEN
  {
    var inner := p[HeaderLen(p)..];
    inner[0] % 2 == 0 && !n.ownClient(inner) && TtvnOlder(p[3], n.ttvn)
  }

  // bat_unicast_rx
  function Unicast(n: Node, p: Bytes): seq<Frame>
    requires Usable(n) && p != []
  {
    if |p| < HeaderLen(p) + ETH_HLEN then []
    else if Dest(p) != n.own then Relay(n, p)
    else if Stale(n, p) then
      match n.resolve(p[HeaderLen(p)..])
      case None => []
      case Some(o) => Relay(n, Rerouted(n, p, o))
    else []
  }

  // bat_unknown_rx
  function Unknown(n: Node, p: Bytes): seq<Frame>
    requires Usable(n)
  {
    if |p| < UC_HLEN || Dest(p) == n.own then [] else Relay(n, p)
  }

  // ---- echo -----------------------------------------------------------------------------

  // send_back's packet.
  function Turned(n: Node, p: Bytes, msg: u8): Bytes
    requires |p| >= IC_HLEN
  {
    p[..2] + [TTL_INIT, msg] + p[10..16] + n.own + p[16..]
  }

  function SendBack(n: Node, p: Bytes, msg: u8): seq<Frame>
    requires Usable(n) && |p| >= IC_HLEN
  {
    var o: Addr := p[10..16];
    if !n.known(o) || !n.routeDefault(o) then [] else SendTo(n, o, Turned(n, p, msg))
  }

  predicate IsEcho(p: Bytes)
    requires |p| >= IC_HLEN
  {
    p[3] == ECHO_REQ || p[3] == ECHO_REPLY
  }

  // The route record with this node added.
  function Recorded(n: Node, p: Bytes): Bytes
    requires |p| >= IC_RR_LEN && p[IC_RRCOUNT] < IC_RR_SLOTS
  {
    var at := IC_HLEN + 6 * p[IC_RRCOUNT];
    p[..IC_RRCOUNT] + [p[IC_RRCOUNT] + 1] + p[IC_RRCOUNT + 1..at] + n.own + p[at + 6..]
  }

  // bat_icmp_rx past the route record.
  function IcmpOn(n: Node, p: Bytes): seq<Frame>
    requires Usable(n) && |p| >= IC_HLEN
  {
    if Dest(p) == n.own then
      if p[3] == ECHO_REQ then SendBack(n, p, ECHO_REPLY) else []
    else if p[2] < 2 then
      if p[3] == ECHO_REQ then SendBack(n, p, TTL_EXC) else []
    else Relay(n, p)
  }

  function Icmp(n: Node, p: Bytes): seq<Frame>
    requires Usable(n)
  {
    if |p| < IC_HLEN then []
    else if IsEcho(p) && |p| >= IC_RR_LEN then
      if p[IC_RRCOUNT] >= IC_RR_SLOTS then [] else IcmpOn(n, Recorded(n, p))
    else IcmpOn(n, p)
  }

  // ---- translation-table requests ------------------------------------------------------

  // bat_tvlv_next: end of the container at off, or None.
  function Next(area: Bytes, off: nat): (r: Option<nat>)
    ensures r.Some? ==> off + TVLV_HLEN <= r.value <= |area|
  {
    if off > |area| || |area| - off < TVLV_HLEN || Get16(area, off + 2) > |area| - off - TVLV_HLEN then None
    else Some(off + TVLV_HLEN + Get16(area, off + 2))
  }

  // The container of area at off is a request bat_tt_utvlv_rx takes.
  predicate IsRequest(area: Bytes, off: nat, end: nat)
    requires off + TVLV_HLEN <= end <= |area|
  {
    area[off] == TVLV_TT && area[off + 1] == 1 && end - off >= 8
    && end - off >= 8 + TT_VLAN_LEN * Get16(area, off + 6) && area[off + 4] % 16 == TT_REQUEST
  }

  // The walk from off meets a request.
  predicate Asks(area: Bytes, off: nat)
    decreases |area| - off
  {
    var end := Next(area, off);
    end.Some? && (IsRequest(area, off, end.value) || Asks(area, end.value))
  }

  // bat_utvlv_send with the full table.
  function AnswerTo(n: Node, o: Addr): Bytes
    requires Usable(n)
  {
    [PT_UTVLV, COMPAT, TTL_INIT, 0] + o + n.own + Put16(TVLV_HLEN + 2 + |n.table|) + [0, 0]
    + [TVLV_TT, 1] + Put16(2 + |n.table|) + [TT_RESPONSE + TT_FULL, n.ttvn] + n.table
  }

  function TvlvLen(p: Bytes): nat
    requires |p| >= UT_HLEN
  {
    Get16(p, 16)
  }

  // bat_utvlv_rx; the second request of one packet finds its source answered just now.
  function Utvlv(n: Node, p: Bytes): seq<Frame>
    requires Usable(n)
  {
    if |p| < UT_HLEN || TvlvLen(p) > |p| - UT_HLEN then []
    else if Dest(p) != n.own then Relay(n, p)
    else
      var src: Addr := p[10..16];
      if Asks(p[UT_HLEN..UT_HLEN + TvlvLen(p)], 0) && n.known(src) && n.routeDefault(src) && n.mayAnswer(src)
      then SendTo(n, src, AnswerTo(n, src))
      else []
  }

  // ---- everything received ----------------------------------------------------------------

  // bat_rx_dispatch; a fragment inside a fragment is refused.
  function Dispatch(n: Node, p: Bytes): seq<Frame>
    requires Usable(n)
  {
    if |p| < 2 || p[1] != COMPAT || !(PT_UNICAST <= p[0] <= PT_LAST) || p[0] == PT_FRAG then []
    else if p[0] == PT_UNICAST || p[0] == PT_4ADDR then Unicast(n, p)
    else if p[0] == PT_ICMP then Icmp(n, p)
    else if p[0] == PT_UTVLV then Utvlv(n, p)
    else Unknown(n, p)
  }

  // bat_frag_rx; completes: the piece is the last its slot waited for.
  function FragRx(n: Node, g: Frame, completes: bool): seq<Frame>
    requires Usable(n) && g.Piece?
  {
    if !n.known(g.orig) then []
    else if g.dest != n.own then
      if g.ttl < 2 || HLEN + |g.f.data| > n.mtu || !n.known(g.dest) || !n.routeIface(g.dest) then []
      else [g.(ttl := g.ttl - 1)]
    else if completes && g.f.total <= BUF then Dispatch(n, g.of)
    else []
  }

  function Receive(n: Node, g: Frame, completes: bool): seq<Frame>
    requires Usable(n)
  {
    if g.Direct? then Dispatch(n, g.p) else FragRx(n, g, completes)
  }

  // ---- the measure ----------------------------------------------------------------------

  // Requests still to be answered: an echo request, or a table request.
  function Stage(p: Bytes): nat {
    if |p| >= IC_HLEN && p[0] == PT_ICMP && p[3] == ECHO_REQ then 1
    else if |p| >= UT_HLEN && p[0] == PT_UTVLV && TvlvLen(p) <= |p| - UT_HLEN
      && Asks(p[UT_HLEN..UT_HLEN + TvlvLen(p)], 0) then 1
    else 0
  }

  function Ttl(p: Bytes): u8 {
    if |p| > 2 then p[2] else 0
  }

  function Inner(g: Frame): Bytes {
    if g.Direct? then g.p else g.of
  }

  function FragTtl(g: Frame): u8 {
    if g.Direct? then 0 else g.ttl
  }

  // Lexicographic: stage, TTL of the packet, TTL of the fragment.
  predicate Below(g: Frame, f: Frame) {
    Stage(Inner(g)) < Stage(Inner(f))
    || (Stage(Inner(g)) == Stage(Inner(f))
        && (Ttl(Inner(g)) < Ttl(Inner(f)) || (Inner(g) == Inner(f) && FragTtl(g) < FragTtl(f))))
  }

  // p' comes strictly before p: relayed, or the reply to it with a fresh TTL.
  predicate Spent(p': Bytes, p: Bytes) {
    (Stage(p') == Stage(p) && Ttl(p') < Ttl(p)) || (Stage(p') < Stage(p) && Ttl(p') == TTL_INIT)
  }

  // Every frame of out carries one packet Spent against p, with at most a fresh fragment TTL,
  // and fits the link.
  ghost predicate Follow(n: Node, out: seq<Frame>, p: Bytes) {
    && |out| <= MAX_N
    && forall i :: 0 <= i < |out| ==>
         Spent(Inner(out[i]), p) && FragTtl(out[i]) <= TTL_INIT && FrameLen(out[i]) <= n.mtu
  }

  function FrameLen(g: Frame): nat {
    if g.Direct? then |g.p| else HLEN + |g.f.data|
  }

  lemma SendFollows(n: Node, dest: Addr, p': Bytes, p: Bytes)
    requires Usable(n) && p' != [] && Spent(p', p)
    ensures Follow(n, SendTo(n, dest, p'), p)
  {
    var out := SendTo(n, dest, p');
    hide Spent;
    forall i | 0 <= i < |out|
      ensures Spent(Inner(out[i]), p) && FragTtl(out[i]) <= TTL_INIT && FrameLen(out[i]) <= n.mtu
    {
      if |p'| > n.mtu {
        SplitAt(p', n.mtu, i);
      }
      hide Split;
    }
  }

  lemma TtlKeepsStage(p: Bytes, t: u8)
    requires |p| >= UC_HLEN
    ensures Stage(p[2 := t]) == Stage(p)
  {
    var p' := p[2 := t];
    if |p| >= UT_HLEN && TvlvLen(p) <= |p| - UT_HLEN {
      assert p'[UT_HLEN..UT_HLEN + TvlvLen(p)] == p[UT_HLEN..UT_HLEN + TvlvLen(p)];
    }
  }

  lemma RelayFollows(n: Node, p': Bytes, p: Bytes)
    requires Usable(n) && |p'| >= UC_HLEN && Stage(p') == Stage(p) && Ttl(p') == Ttl(p)
    ensures Follow(n, Relay(n, p'), p)
  {
    if p'[2] >= 2 {
      TtlKeepsStage(p', p'[2] - 1);
      SendFollows(n, Dest(p'), p'[2 := p'[2] - 1], p);
    }
    hide Follow, SendTo;
  }

  lemma UnicastFollows(n: Node, p: Bytes)
    requires Usable(n) && |p| >= 2 && (p[0] == PT_UNICAST || p[0] == PT_4ADDR)
    ensures Follow(n, Unicast(n, p), p)
  {
    if |p| >= HeaderLen(p) + ETH_HLEN {
      RelayFollows(n, p, p);
      if Stale(n, p) && n.resolve(p[HeaderLen(p)..]).Some? {
        RelayFollows(n, Rerouted(n, p, n.resolve(p[HeaderLen(p)..]).value), p);
      }
    }
    hide Relay, Stale;
  }

  lemma IcmpFollows(n: Node, p: Bytes)
    requires Usable(n) && |p| >= 2 && p[0] == PT_ICMP
    ensures Follow(n, Icmp(n, p), p)
  {
    if |p| >= IC_HLEN && IsEcho(p) && |p| >= IC_RR_LEN && p[IC_RRCOUNT] < IC_RR_SLOTS {
      var q := Recorded(n, p);
      assert q[0] == p[0] && q[2] == p[2] && q[3] == p[3] && |q| == |p|;
      IcmpOnFollows(n, q, p);
    } else if |p| >= IC_HLEN {
      IcmpOnFollows(n, p, p);
    }
    hide IcmpOn, Recorded, Spent;
  }

  lemma IcmpOnFollows(n: Node, q: Bytes, p: Bytes)
    requires Usable(n) && |p| >= IC_HLEN && |q| == |p| && q[0] == p[0] == PT_ICMP && q[2] == p[2] && q[3] == p[3]
    ensures Follow(n, IcmpOn(n, q), p)
  {
    RelayFollows(n, q, p);
    if q[3] == ECHO_REQ {
      assert Stage(p) == 1;
      forall msg: u8 | msg == ECHO_REPLY || msg == TTL_EXC
        ensures Follow(n, SendBack(n, q, msg), p)
      {
        assert Turned(n, q, msg)[0] == PT_ICMP && Turned(n, q, msg)[3] == msg && Turned(n, q, msg)[2] == TTL_INIT;
        SendFollows(n, q[10..16], Turned(n, q, msg), p);
      }
    }
    hide Relay, SendBack, Follow, Turned;
  }

  // An answer holds no request.
  lemma AnswerAsksNothing(n: Node, o: Addr)
    requires Usable(n)
    ensures |AnswerTo(n, o)| > 2 && Stage(AnswerTo(n, o)) == 0 && Ttl(AnswerTo(n, o)) == TTL_INIT
  {
    var a := AnswerTo(n, o);
    var v := 2 + |n.table|;
    assert |a| == UT_HLEN + TVLV_HLEN + v;
    assert a[0] == PT_UTVLV && a[2] == TTL_INIT && a[16] == (TVLV_HLEN + v) / 256 && a[17] == (TVLV_HLEN + v) % 256;
    var area := a[UT_HLEN..];
    assert a[UT_HLEN..UT_HLEN + TvlvLen(a)] == area;
    assert area[2] == v / 256 && area[3] == v % 256 && area[4] == TT_RESPONSE + TT_FULL;
    hide AnswerTo;
    assert Next(area, 0) == Some(|area|);
    assert !Asks(area, |area|);
  }

  lemma UtvlvFollows(n: Node, p: Bytes)
    requires Usable(n) && |p| >= 2 && p[0] == PT_UTVLV
    ensures Follow(n, Utvlv(n, p), p)
  {
    if |p| >= UT_HLEN && TvlvLen(p) <= |p| - UT_HLEN {
      RelayFollows(n, p, p);
      var src: Addr := p[10..16];
      if Asks(p[UT_HLEN..UT_HLEN + TvlvLen(p)], 0) {
        AnswerAsksNothing(n, src);
        SendFollows(n, src, AnswerTo(n, src), p);
      }
    }
    hide Relay, AnswerTo, Asks, SendTo;
  }

  lemma DispatchFollows(n: Node, p: Bytes)
    requires Usable(n)
    ensures Follow(n, Dispatch(n, p), p)
  {
    if |p| >= 2 {
      if p[0] == PT_UNICAST || p[0] == PT_4ADDR {
        UnicastFollows(n, p);
      } else if p[0] == PT_ICMP {
        IcmpFollows(n, p);
      } else if p[0] == PT_UTVLV {
        UtvlvFollows(n, p);
      } else if |p| >= UC_HLEN {
        RelayFollows(n, p, p);
      }
    }
    hide Unicast, Icmp, Utvlv, Relay, Spent;
  }

  // Every transmission a frame causes is below it and fits the link; at most 16 at once.
  lemma Falls(n: Node, f: Frame, completes: bool)
    requires Usable(n)
    ensures |Receive(n, f, completes)| <= MAX_N
    ensures forall g :: g in Receive(n, f, completes) ==> Below(g, f) && FrameLen(g) <= n.mtu
  {
    DispatchFollows(n, Inner(f));
    hide Dispatch, Stage, Ttl;
  }

  // ---- chains ----------------------------------------------------------------------------

  // f, received by some node in some state, makes it send g.
  ghost predicate Causes(f: Frame, g: Frame) {
    exists n: Node, completes: bool :: Usable(n) && g in Receive(n, f, completes)
  }

  ghost predicate Chain(fs: seq<Frame>) {
    forall i :: 0 < i < |fs| ==> Causes(fs[i - 1], fs[i])
  }

  // The measure as one number, for TTLs below base.
  function Value(g: Frame, base: nat): nat {
    (Stage(Inner(g)) * base + Ttl(Inner(g))) * base + FragTtl(g)
  }

  predicate Capped(g: Frame, base: nat) {
    Ttl(Inner(g)) < base && FragTtl(g) < base
  }

  lemma Carry(a': nat, a: nat, k': nat, k: nat, base: nat)
    requires k' < base && (a' < a || (a' == a && k' < k))
    ensures a' * base + k' < a * base + k
  {
    if a' < a {
      assert a * base >= (a' + 1) * base == a' * base + base;
    }
  }

  lemma ValueFalls(f: Frame, g: Frame, base: nat)
    requires Below(g, f) && Capped(g, base)
    ensures Value(g, base) < Value(f, base)
  {
    hide Stage, Ttl, FragTtl, Inner;
    var s, s' := Stage(Inner(f)), Stage(Inner(g));
    var t, t' := Ttl(Inner(f)), Ttl(Inner(g));
    if s' < s || t' < t {
      Carry(s', s, t', t, base);
    }
    Carry(s' * base + t', s * base + t, FragTtl(g), FragTtl(f), base);
  }

  lemma StaysCapped(n: Node, f: Frame, completes: bool, g: Frame, base: nat)
    requires Usable(n) && g in Receive(n, f, completes) && Capped(f, base) && base > TTL_INIT
    ensures Capped(g, base)
  {
    DispatchFollows(n, Inner(f));
    hide Dispatch, Stage, Ttl;
  }

  lemma CauseFalls(f: Frame, g: Frame, base: nat)
    requires Causes(f, g) && Capped(f, base) && base > TTL_INIT
    ensures Capped(g, base) && Value(g, base) < Value(f, base)
  {
    hide Receive, Below, Capped, Value;
    var n: Node, completes: bool :| Usable(n) && g in Receive(n, f, completes);
    Falls(n, f, completes);
    StaysCapped(n, f, completes, g, base);
    ValueFalls(f, g, base);
  }

  // Whatever nodes it passes and whatever their tables say meanwhile, a chain of
  // transmissions is no longer than its first frame's measure.
  lemma {:induction false} ChainEnds(fs: seq<Frame>, base: nat)
    requires fs != [] && Chain(fs) && Capped(fs[0], base) && base > TTL_INIT
    ensures |fs| <= Value(fs[0], base) + 1
  {
    hide Causes, Value, Capped;
    if |fs| > 1 {
      assert Causes(fs[0], fs[1]);
      CauseFalls(fs[0], fs[1], base);
      forall i | 0 < i < |fs[1..]|
        ensures Causes(fs[1..][i - 1], fs[1..][i])
      {
        assert Causes(fs[i], fs[i + 1]);
      }
      ChainEnds(fs[1..], base);
    }
  }

  lemma StageIsBit(p: Bytes)
    ensures Stage(p) <= 1
  {
  }

  // Any frame at all, and any with the TTLs every node here starts from.
  lemma ChainBounds(fs: seq<Frame>)
    requires fs != [] && Chain(fs)
    ensures |fs| <= 131072
    ensures Ttl(Inner(fs[0])) <= TTL_INIT && FragTtl(fs[0]) <= TTL_INIT ==> |fs| <= 5202
  {
    StageIsBit(Inner(fs[0]));
    ChainEnds(fs, 256);
    if Capped(fs[0], 51) {
      ChainEnds(fs, 51);
    }
    hide Stage, Ttl, Chain;
  }

  // ---- the handlers, on the frame buffer ------------------------------------------------

  method BatRelay(n: Node, p: array<u8>) returns (out: seq<Frame>)
    requires Usable(n) && p.Length >= UC_HLEN
    modifies p
    ensures out == Relay(n, old(p[..]))
  {
    ghost var was := p[..];
    if p[2] < 2 {
      return [];
    }
    var dest: Addr := p[4..10];
    assert dest == Dest(was);
    if !n.known(dest) || !n.routeIface(dest) {
      return [];
    }
    p[2] := p[2] - 1;
    assert p[..] == was[2 := was[2] - 1];
    out := SendTo(n, dest, p[..]);
  }

  // memcpy of an address into the buffer.
  method PutAddr(p: array<u8>, at: nat, a: Addr)
    requires at + 6 <= p.Length
    modifies p
    ensures p[..] == old(p[..at]) + a + old(p[at + 6..])
  {
    forall i | 0 <= i < 6 {
      p[at + i] := a[i];
    }
  }

  method UnicastRx(n: Node, p: array<u8>) returns (out: seq<Frame>)
    requires Usable(n) && p.Length >= 2
    modifies p
    ensures out == Unicast(n, old(p[..]))
  {
    ghost var was := p[..];
    var hl := if p[0] == PT_4ADDR then FOURADDR_HLEN else UC_HLEN;
    if p.Length < hl || p.Length < hl + ETH_HLEN {
      return [];
    }
    if p[4..10] != n.own {
      out := BatRelay(n, p);
      return;
    }
    var inner := p[hl..];
    if inner[0] % 2 == 0 && !n.ownClient(inner) && TtvnOlder(p[3], n.ttvn) {
      var o := n.resolve(inner);
      if o.None? {
        return [];
      }
      PutAddr(p, 4, o.value);
      p[3] := n.ucTtvn(o.value);
      assert p[..] == Rerouted(n, was, o.value);
      hide Relay;
      out := BatRelay(n, p);
      return;
    }
    out := [];
  }

  method SendBackRx(n: Node, p: array<u8>, msg: u8) returns (out: seq<Frame>)
    requires Usable(n) && p.Length >= IC_HLEN
    modifies p
    ensures out == SendBack(n, old(p[..]), msg)
  {
    ghost var was := p[..];
    var o: Addr := p[10..16];
    assert o == was[10..16];
    if !n.known(o) || !n.routeDefault(o) {
      return [];
    }
    PutAddr(p, 4, o);
    PutAddr(p, 10, n.own);
    p[3] := msg;
    p[2] := TTL_INIT;
    assert p[..] == Turned(n, was, msg);
    out := SendTo(n, o, p[..]);
  }

  method IcmpRx(n: Node, p: array<u8>) returns (out: seq<Frame>)
    requires Usable(n) && p.Length >= 2
    modifies p
    ensures out == Icmp(n, old(p[..]))
  {
    ghost var was := p[..];
    if p.Length < IC_HLEN {
      return [];
    }
    var mt := p[3];
    ghost var q := was;
    if (mt == ECHO_REQ || mt == ECHO_REPLY) && p.Length >= IC_RR_LEN {
      if p[IC_RRCOUNT] >= IC_RR_SLOTS {
        return [];
      }
      PutAddr(p, IC_HLEN + 6 * p[IC_RRCOUNT], n.own);
      p[IC_RRCOUNT] := p[IC_RRCOUNT] + 1;
      q := Recorded(n, was);
      assert p[..] == q;
    }
    assert Icmp(n, was) == IcmpOn(n, q);
    hide Icmp, Recorded, Relay, SendBack;
    if p[4..10] == n.own {
      if mt == ECHO_REQ {
        out := SendBackRx(n, p, ECHO_REPLY);
      } else {
        out := [];
      }
    } else if p[2] < 2 {
      if mt == ECHO_REQ {
        out := SendBackRx(n, p, TTL_EXC);
      } else {
        out := [];
      }
    } else {
      out := BatRelay(n, p);
    }
  }

  method UtvlvRx(n: Node, p: array<u8>) returns (out: seq<Frame>)
    requires Usable(n) && p.Length >= 2
    modifies p
    ensures out == Utvlv(n, old(p[..]))
  {
    ghost var was := p[..];
    if p.Length < UT_HLEN {
      return [];
    }
    var tl := Get16(p[..], 16);
    if tl > p.Length - UT_HLEN {
      return [];
    }
    if p[4..10] != n.own {
      out := BatRelay(n, p);
      return;
    }
    var src: Addr := p[10..16];
    var area := p[UT_HLEN..UT_HLEN + tl];
    assert src == was[10..16] && area == was[UT_HLEN..UT_HLEN + tl];
    out := [];
    var off := 0;
    var answered := false;
    var end := Next(area, off);
    while end.Some?
      invariant off <= |area| && end == Next(area, off)
      invariant Asks(area, 0) <==> answered || Asks(area, off)
      invariant
        out == if answered && n.known(src) && n.routeDefault(src) && n.mayAnswer(src)
               then SendTo(n, src, AnswerTo(n, src)) else []
      decreases |area| - off
      modifies {}
    {
      hide AnswerTo, SendTo;
      if IsRequest(area, off, end.value) {
        if !answered && n.known(src) && n.routeDefault(src) && n.mayAnswer(src) {
          out := SendTo(n, src, AnswerTo(n, src));
        }
        answered := true;
      }
      off := end.value;
      end := Next(area, off);
    }
  }

  method UnknownRx(n: Node, p: array<u8>) returns (out: seq<Frame>)
    requires Usable(n) && p.Length >= 2
    modifies p
    ensures out == Unknown(n, old(p[..]))
  {
    if p.Length < UC_HLEN || p[4..10] == n.own {
      return [];
    }
    out := BatRelay(n, p);
  }

  method RxDispatch(n: Node, p: array<u8>) returns (out: seq<Frame>)
    requires Usable(n)
    modifies p
    ensures out == Dispatch(n, old(p[..]))
  {
    hide Unicast, Icmp, Utvlv, Unknown;
    if p.Length < 2 || p[1] != COMPAT || !(PT_UNICAST <= p[0] <= PT_LAST) || p[0] == PT_FRAG {
      return [];
    }
    if p[0] == PT_UNICAST || p[0] == PT_4ADDR {
      out := UnicastRx(n, p);
    } else if p[0] == PT_ICMP {
      out := IcmpRx(n, p);
    } else if p[0] == PT_UTVLV {
      out := UtvlvRx(n, p);
    } else {
      out := UnknownRx(n, p);
    }
  }
}
