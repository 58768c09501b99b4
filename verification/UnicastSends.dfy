// Whom the transmissions of UnicastChain go to and what they hold, byte by byte
// (main/bat/bat_unicast.c, bat_icmp.c, bat_utvlv.c, bat_frag.c; main/bat/bat_tt.c for requests).
module UnicastSends {
  import opened Words
  import opened FragSplit
  import FragAssembly
  import opened UnicastChain

  // ---- carried ------------------------------------------------------------------------------

  // Whole, or in at most 16 pieces.
  predicate Fits(n: Node, length: nat)
    requires Usable(n)
  {
    length <= n.mtu || (length <= MAX_N * Room(n.mtu) && length <= 0xFFFF)
  }

  function Parts(out: seq<Frame>): seq<Bytes>
    requires forall i :: 0 <= i < |out| ==> out[i].Piece?
  {
    seq(|out|, i requires 0 <= i < |out| => out[i].f.data)
  }

  // out takes q to dest: as it is, or in fresh pieces of this node that a receiver joins to q.
  ghost predicate Carried(n: Node, out: seq<Frame>, dest: Addr, q: Bytes) {
    if |q| <= n.mtu then out == [Direct(q)]
    else
      && (forall i :: 0 <= i < |out| ==>
            out[i].Piece? && out[i].ttl == TTL_INIT && out[i].dest == dest && out[i].orig == n.own && out[i].of == q
            && out[i].f.num == i && out[i].f.seqno == n.fragSeq && out[i].f.total == |q|)
      && FragAssembly.Deliver(Parts(out), |q|, seq(|out|, i => i)) == (FragAssembly.None, [q])
  }

  lemma SplitFits(q: Bytes, mtu: nat)
    requires q != [] && mtu >= MIN_MTU
    ensures |Split(q, mtu)| <= MAX_N <==> |q| <= MAX_N * Room(mtu)
    ensures |Split(q, mtu)| > 0
  {
    var e, c := Room(mtu), |Split(q, mtu)|;
    EqualSplit(|q|, e);
    CeilDivIs(|q|, e);
    if c <= MAX_N {
      MulMono(e, c, MAX_N);
    } else {
      MulMono(e, MAX_N, c - 1);
    }
  }

  lemma SendCarries(n: Node, dest: Addr, q: Bytes)
    requires Usable(n) && q != []
    ensures SendTo(n, dest, q) != [] <==> Fits(n, |q|)
    ensures Fits(n, |q|) ==> Carried(n, SendTo(n, dest, q), dest, q)
  {
    var out := SendTo(n, dest, q);
    SplitFits(q, n.mtu);
    if |q| > n.mtu && Fits(n, |q|) {
      assert Parts(out) == Split(q, n.mtu);
      FragAssembly.SentInTurn(q, n.mtu);
      assert seq(|out|, i => i) == seq(|Split(q, n.mtu)|, i => i);
    }
    hide Split;
  }

  // ---- relays -------------------------------------------------------------------------------

  ghost predicate SameBut(q: Bytes, p: Bytes, lo: nat, hi: nat) {
    |q| == |p| && forall k :: 0 <= k < |p| && !(lo <= k < hi) ==> q[k] == p[k]
  }

  // p goes on toward its destination with its TTL one lower, or nothing does.
  ghost predicate RelayedOn(n: Node, out: seq<Frame>, p: Bytes)
    requires Usable(n) && |p| >= UC_HLEN
  {
    && (out != [] <==> p[2] >= 2 && n.known(p[4..10]) && n.routeIface(p[4..10]) && Fits(n, |p|))
    && (out != [] ==> exists q :: Carried(n, out, p[4..10], q) && SameBut(q, p, 2, 3) && q[2] == p[2] - 1)
  }

  lemma RelaySends(n: Node, p: Bytes)
    requires Usable(n) && |p| >= UC_HLEN
    ensures RelayedOn(n, Relay(n, p), p)
  {
    if p[2] >= 2 {
      var q := p[2 := p[2] - 1];
      SendCarries(n, p[4..10], q);
      assert SameBut(q, p, 2, 3) && q[2] == p[2] - 1;
    }
    hide SendTo, Carried, Fits;
  }

  function Later(x: u8, d: nat): u8 {
    (x + d) % 256
  }

  // y is 1 to 127 versions past x.
  predicate Past(x: u8, y: u8) {
    exists d: u8 :: 1 <= d <= 127 && Later(x, d) == y
  }

  lemma PastIs(x: u8, y: u8)
    ensures TtvnOlder(x, y) <==> Past(x, y)
  {
    if TtvnOlder(x, y) {
      assert Later(x, (y - x) % 256) == y;
    }
  }

  // A client packet: relayed; or, for an individual client that is not ours any more while the
  // sender knew an older table, sent on to the originator that has it, with that one's version.
  ghost predicate UnicastHandled(n: Node, p: Bytes, out: seq<Frame>)
    requires Usable(n) && p != []
  {
    var hl := if p[0] == PT_4ADDR then 18 else 10;
    if |p| < hl + 14 then out == []
    else if p[4..10] != n.own then RelayedOn(n, out, p)
    else if p[hl] % 2 == 1 || n.ownClient(p[hl..]) || !Past(p[3], n.ttvn) || n.resolve(p[hl..]).None? then out == []
    else
      var o := n.resolve(p[hl..]).value;
      exists r :: |r| >= UC_HLEN && SameBut(r, p, 3, 10) && r[3] == n.ucTtvn(o) && r[4..10] == o && RelayedOn(n, out, r)
  }

  lemma UnicastSends(n: Node, p: Bytes)
    requires Usable(n) && p != []
    ensures UnicastHandled(n, p, Unicast(n, p))
  {
    var hl := HeaderLen(p);
    if |p| >= hl + ETH_HLEN {
      PastIs(p[3], n.ttvn);
      assert p[hl..][0] == p[hl];
      RelaySends(n, p);
      if n.resolve(p[hl..]).Some? {
        var o := n.resolve(p[hl..]).value;
        var r := Rerouted(n, p, o);
        RelaySends(n, r);
        assert SameBut(r, p, 3, 10) && r[3] == n.ucTtvn(o) && r[4..10] == o;
      }
    }
    hide Relay, RelayedOn, Past, TtvnOlder;
  }

  // ---- echo ---------------------------------------------------------------------------------

  // q is p turned around: to the originator of p, from own, with a fresh TTL.
  ghost predicate BackTo(q: Bytes, p: Bytes, own: Addr, msg: u8)
    requires |p| >= IC_HLEN
  {
    && SameBut(q, p, 2, 16)
    && q[2] == TTL_INIT && q[3] == msg && q[4..10] == p[10..16] && q[10..16] == own
  }

  ghost predicate AnsweredBack(n: Node, out: seq<Frame>, p: Bytes, msg: u8)
    requires Usable(n) && |p| >= IC_HLEN
  {
    && (out != [] <==> n.known(p[10..16]) && n.routeDefault(p[10..16]) && Fits(n, |p|))
    && (out != [] ==> exists q :: Carried(n, out, p[10..16], q) && BackTo(q, p, n.own, msg))
  }

  lemma BackSends(n: Node, p: Bytes, msg: u8)
    requires Usable(n) && |p| >= IC_HLEN
    ensures AnsweredBack(n, SendBack(n, p, msg), p, msg)
  {
    var q := Turned(n, p, msg);
    SendCarries(n, p[10..16], q);
    assert BackTo(q, p, n.own, msg);
    hide SendTo, Carried, Fits, BackTo;
  }

  // r is p with own entered in its route record.
  ghost predicate RecordedIn(r: Bytes, p: Bytes, own: Addr)
    requires |p| >= IC_RR_LEN && p[IC_RRCOUNT] < IC_RR_SLOTS
  {
    var at := 20 + 6 * p[17];
    && |r| == |p| && r[17] == p[17] + 1 && r[at..at + 6] == own
    && forall k :: 0 <= k < |p| && k != 17 && !(at <= k < at + 6) ==> r[k] == p[k]
  }

  // Past the route record: a request to this node is answered by a reply, one at its last hop by
  // "TTL exceeded", anything else is relayed.
  ghost predicate EchoHandled(n: Node, r: Bytes, out: seq<Frame>)
    requires Usable(n) && |r| >= IC_HLEN
  {
    if r[4..10] == n.own || r[2] < 2 then
      if r[3] == ECHO_REQ then AnsweredBack(n, out, r, if r[4..10] == n.own then ECHO_REPLY else TTL_EXC) else out == []
    else RelayedOn(n, out, r)
  }

  ghost predicate IcmpHandled(n: Node, p: Bytes, out: seq<Frame>)
    requires Usable(n)
  {
    if |p| < IC_HLEN then out == []
    else if (p[3] != ECHO_REQ && p[3] != ECHO_REPLY) || |p| < 116 then EchoHandled(n, p, out)
    else if p[17] >= 16 then out == []
    else exists r :: RecordedIn(r, p, n.own) && EchoHandled(n, r, out)
  }

  lemma OnSends(n: Node, r: Bytes)
    requires Usable(n) && |r| >= IC_HLEN
    ensures EchoHandled(n, r, IcmpOn(n, r))
  {
    RelaySends(n, r);
    BackSends(n, r, ECHO_REPLY);
    BackSends(n, r, TTL_EXC);
    hide Relay, SendBack, RelayedOn, AnsweredBack;
  }

  lemma IcmpSends(n: Node, p: Bytes)
    requires Usable(n)
    ensures IcmpHandled(n, p, Icmp(n, p))
  {
    if |p| >= IC_RR_LEN && p[IC_RRCOUNT] < IC_RR_SLOTS {
      var r := Recorded(n, p);
      assert RecordedIn(r, p, n.own);
      OnSends(n, r);
    }
    if |p| >= IC_HLEN {
      OnSends(n, p);
    }
    hide IcmpOn, EchoHandled, RecordedIn, Recorded;
  }

  // ---- containers ---------------------------------------------------------------------------

  function Big(high: int, low: int): int {
    high * 256 + low
  }

  datatype Container = Container(kind: u8, version: u8, value: Bytes)

  function Laid(c: Container): Bytes
    requires |c.value| <= 0xFFFF
  {
    [c.kind, c.version, |c.value| / 256, |c.value| % 256] + c.value
  }

  predicate Short(cs: seq<Container>) {
    forall i :: 0 <= i < |cs| ==> |cs[i].value| <= 0xFFFF
  }

  // Containers end to end.
  function Area(cs: seq<Container>): Bytes
    requires Short(cs)
  {
    if cs == [] then [] else Laid(cs[0]) + Area(cs[1..])
  }

  // A request for this node's table: type 4, version 1, low half of the flags 2, and room for
  // the VLANs it says it holds.
  predicate Requests(c: Container) {
    c.kind == 4 && c.version == 1 && |c.value| >= 4 && c.value[0] % 16 == 2
    && |c.value| >= 4 + 8 * Big(c.value[2], c.value[3])
  }

  predicate Tail(rest: Bytes) {
    |rest| < 4 || Big(rest[2], rest[3]) > |rest| - 4
  }

  lemma NextOf(before: Bytes, c: Container, rest: Bytes)
    requires |c.value| <= 0xFFFF
    ensures
      var area, off := before + (Laid(c) + rest), |before|;
      && Next(area, off) == Some(off + 4 + |c.value|)
      && (IsRequest(area, off, off + 4 + |c.value|) <==> Requests(c))
      && area == (before + Laid(c)) + rest
  {
    var area, off := before + (Laid(c) + rest), |before|;
    assert area == (before + Laid(c)) + rest;
    var v := |c.value|;
    assert area[off] == c.kind && area[off + 1] == c.version && area[off + 2] == v / 256 && area[off + 3] == v % 256;
    assert forall k :: 0 <= k < v ==> area[off + 4 + k] == c.value[k];
    hide Laid;
  }

  // Whatever containers lie end to end, the walk meets a request exactly if one is one; bytes
  // behind them that are no container are not looked at.
  lemma {:induction false} AsksOf(before: Bytes, cs: seq<Container>, rest: Bytes)
    requires Short(cs) && Tail(rest)
    ensures Asks(before + (Area(cs) + rest), |before|) <==> exists i :: 0 <= i < |cs| && Requests(cs[i])
    decreases |cs|
  {
    if cs == [] {
      assert Area(cs) + rest == rest;
      var area := before + rest;
      assert |rest| >= 4 ==> area[|before| + 2] == rest[2] && area[|before| + 3] == rest[3];
      assert Next(area, |before|) == None;
      assert before + (Area(cs) + rest) == area;
    } else {
      AsksStep(before, cs, rest);
      AsksOf(before + Laid(cs[0]), cs[1..], rest);
      hide Laid, Requests, Area, Asks;
      if exists i :: 0 <= i < |cs| && Requests(cs[i]) {
        var i :| 0 <= i < |cs| && Requests(cs[i]);
        assert i > 0 ==> cs[1..][i - 1] == cs[i];
      }
    }
  }

  lemma AsksStep(before: Bytes, cs: seq<Container>, rest: Bytes)
    requires cs != [] && Short(cs)
    ensures
      var area := before + (Area(cs) + rest);
      && area == (before + Laid(cs[0])) + (Area(cs[1..]) + rest)
      && (Asks(area, |before|) <==> Requests(cs[0]) || Asks(area, |before + Laid(cs[0])|))
  {
    AreaFirst(cs, rest);
    assert |cs[0].value| <= 0xFFFF;
    hide *;
    AsksAt(before, cs[0], Area(cs[1..]) + rest);
  }

  lemma AreaFirst(cs: seq<Container>, rest: Bytes)
    requires cs != [] && Short(cs)
    ensures Area(cs) + rest == Laid(cs[0]) + (Area(cs[1..]) + rest)
  {
    hide Laid;
    assert (Laid(cs[0]) + Area(cs[1..])) + rest == Laid(cs[0]) + (Area(cs[1..]) + rest);
  }

  lemma AsksAt(before: Bytes, c: Container, rest: Bytes)
    requires |c.value| <= 0xFFFF
    ensures
      var area := before + (Laid(c) + rest);
      && area == (before + Laid(c)) + rest
      && (Asks(area, |before|) <==> Requests(c) || Asks(area, |before + Laid(c)|))
  {
    assert |Laid(c)| == 4 + |c.value|;
    hide Laid, Requests, IsRequest, Next;
    NextOf(before, c, rest);
  }

  // And every area is such a row of containers.
  lemma {:induction false} EveryArea(area: Bytes) returns (cs: seq<Container>, rest: Bytes)
    ensures Short(cs) && Tail(rest) && area == Area(cs) + rest
    decreases |area|
  {
    if Tail(area) {
      cs, rest := [], area;
    } else {
      var end := 4 + Big(area[2], area[3]);
      var c := Container(area[0], area[1], area[4..end]);
      var more;
      more, rest := EveryArea(area[end..]);
      cs := [c] + more;
      assert cs[1..] == more;
      assert area == Laid(c) + area[end..];
      hide Laid, Area;
      assert Laid(c) + (Area(more) + rest) == (Laid(c) + Area(more)) + rest;
    }
  }

  // ---- table requests and answers -----------------------------------------------------------

  // The answer's bytes: to o, from this node, one container with the whole table.
  ghost predicate AnswerFor(q: Bytes, n: Node, o: Addr)
    requires Usable(n)
  {
    && |q| == 26 + |n.table|
    && q[0] == PT_UTVLV && q[1] == COMPAT && q[2] == TTL_INIT && q[3] == 0
    && q[4..10] == o && q[10..16] == n.own
    && Big(q[16], q[17]) == |q| - 20 && q[18] == 0 && q[19] == 0
    && q[20..] == Laid(Container(4, 1, [0x14, n.ttvn] + n.table))
  }

  lemma AnswerBytes(n: Node, o: Addr)
    requires Usable(n)
    ensures AnswerFor(AnswerTo(n, o), n, o)
  {
    var q, v := AnswerTo(n, o), [0x14, n.ttvn] + n.table;
    assert |v| == 2 + |n.table|;
    assert q[20..] == [4, 1] + Put16(|v|) + v;
  }

  ghost predicate AnsweredTable(n: Node, out: seq<Frame>, src: Addr, asked: bool)
    requires Usable(n)
  {
    && (out != [] <==>
          asked && n.known(src) && n.routeDefault(src) && n.mayAnswer(src) && Fits(n, 26 + |n.table|))
    && (out != [] ==> exists q :: Carried(n, out, src, q) && AnswerFor(q, n, src))
  }

  // Containers from src: answered if one of them asks for the table.
  ghost predicate TableHandled(n: Node, src: Addr, area: Bytes, out: seq<Frame>)
    requires Usable(n)
  {
    forall cs, rest :: Short(cs) && Tail(rest) && area == Area(cs) + rest ==>
      AnsweredTable(n, out, src, exists i :: 0 <= i < |cs| && Requests(cs[i]))
  }

  // A packet of containers: relayed, or answered if it asks for the table.
  ghost predicate UtvlvHandled(n: Node, p: Bytes, out: seq<Frame>)
    requires Usable(n)
  {
    if |p| < 20 || Big(p[16], p[17]) > |p| - 20 then out == []
    else if p[4..10] != n.own then RelayedOn(n, out, p)
    else TableHandled(n, p[10..16], p[20..20 + Big(p[16], p[17])], out)
  }

  lemma AnswerSends(n: Node, src: Addr, asked: bool)
    requires Usable(n)
    ensures AnsweredTable(n, if asked && n.known(src) && n.routeDefault(src) && n.mayAnswer(src)
                             then SendTo(n, src, AnswerTo(n, src)) else [], src, asked)
  {
    AnswerBytes(n, src);
    SendCarries(n, src, AnswerTo(n, src));
    hide AnswerTo, SendTo, Carried, Fits;
  }

  lemma AsksWhole(area: Bytes, cs: seq<Container>, rest: Bytes)
    requires Short(cs) && Tail(rest) && area == Area(cs) + rest
    ensures Asks(area, 0) <==> exists i :: 0 <= i < |cs| && Requests(cs[i])
  {
    var none: Bytes := [];
    assert |none| == 0 && none + area == area;
    hide *;
    AsksOf(none, cs, rest);
  }

  lemma AsksAnswered(n: Node, src: Addr, area: Bytes, out: seq<Frame>, cs: seq<Container>, rest: Bytes)
    requires Usable(n) && Short(cs) && Tail(rest) && area == Area(cs) + rest
    requires out == if Asks(area, 0) && n.known(src) && n.routeDefault(src) && n.mayAnswer(src)
                    then SendTo(n, src, AnswerTo(n, src)) else []
    ensures AnsweredTable(n, out, src, exists i :: 0 <= i < |cs| && Requests(cs[i]))
  {
    hide *;
    AsksWhole(area, cs, rest);
    AnswerSends(n, src, Asks(area, 0));
  }

  lemma TableSends(n: Node, src: Addr, area: Bytes, out: seq<Frame>)
    requires Usable(n)
    requires out == if Asks(area, 0) && n.known(src) && n.routeDefault(src) && n.mayAnswer(src)
                    then SendTo(n, src, AnswerTo(n, src)) else []
    ensures TableHandled(n, src, area, out)
  {
    hide Asks, SendTo, AnswerTo, AnsweredTable, Area, Requests, Tail, Short;
    forall cs, rest | Short(cs) && Tail(rest) && area == Area(cs) + rest
      ensures AnsweredTable(n, out, src, exists i :: 0 <= i < |cs| && Requests(cs[i]))
    {
      AsksAnswered(n, src, area, out, cs, rest);
    }
  }

  lemma UtvlvSends(n: Node, p: Bytes)
    requires Usable(n)
    ensures UtvlvHandled(n, p, Utvlv(n, p))
  {
    if |p| >= UT_HLEN && TvlvLen(p) <= |p| - UT_HLEN {
      hide SendTo, AnswerTo, Relay, Asks, RelayedOn, TableHandled;
      if Dest(p) == n.own {
        TableSends(n, p[10..16], p[UT_HLEN..UT_HLEN + TvlvLen(p)], Utvlv(n, p));
      } else {
        RelaySends(n, p);
      }
    }
  }

  // ---- everything received --------------------------------------------------------------------

  ghost predicate Handled(n: Node, p: Bytes, out: seq<Frame>)
    requires Usable(n)
  {
    if |p| < 2 || p[1] != 15 || p[0] < 0x40 || p[0] > 0x7F || p[0] == 0x41 then out == []
    else if p[0] == 0x40 || p[0] == 0x42 then UnicastHandled(n, p, out)
    else if p[0] == 0x43 then IcmpHandled(n, p, out)
    else if p[0] == 0x44 then UtvlvHandled(n, p, out)
    else if |p| < 10 || p[4..10] == n.own then out == []
    else RelayedOn(n, out, p)
  }

  lemma DispatchSends(n: Node, p: Bytes)
    requires Usable(n)
    ensures Handled(n, p, Dispatch(n, p))
  {
    IcmpSends(n, p);
    UtvlvSends(n, p);
    if |p| >= 1 {
      UnicastSends(n, p);
    }
    if |p| >= UC_HLEN {
      RelaySends(n, p);
    }
    hide Unicast, Icmp, Utvlv, Relay, UnicastHandled, IcmpHandled, UtvlvHandled, RelayedOn;
  }

  // A packet in pieces is treated as one received whole, at its destination; elsewhere a piece
  // goes on with its TTL one lower and is otherwise untouched.
  ghost predicate PieceHandled(n: Node, g: Frame, completes: bool, out: seq<Frame>)
    requires Usable(n) && g.Piece?
  {
    if !n.known(g.orig) then out == []
    else if g.dest == n.own then
      if completes && g.f.total <= BUF then Handled(n, g.of, out) else out == []
    else
      && (out != [] <==> g.ttl >= 2 && n.known(g.dest) && n.routeIface(g.dest) && 20 + |g.f.data| <= n.mtu)
      && (out != [] ==> g.ttl > 0 && out == [Frame.Piece(g.ttl - 1, g.dest, g.orig, g.f, g.of)])
  }

  lemma PieceSends(n: Node, g: Frame, completes: bool)
    requires Usable(n) && g.Piece?
    ensures PieceHandled(n, g, completes, FragRx(n, g, completes))
  {
    DispatchSends(n, g.of);
    hide Dispatch, Handled;
  }

  // ---- requests meet their answers ------------------------------------------------------------

  // tt_request's packet: VLAN records of vlans, of which there are count.
  function RequestTo(n: Node, o: Addr, full: bool, ttvn: u8, count: u16, vlans: Bytes): Bytes
    requires |vlans| == 8 * count && |vlans| + 8 <= 0xFFFF
  {
    [PT_UTVLV, COMPAT, TTL_INIT, 0] + o + n.own + Put16(8 + |vlans|) + [0, 0]
    + [TVLV_TT, 1] + Put16(4 + |vlans|) + [if full then TT_REQUEST + TT_FULL else TT_REQUEST, ttvn]
    + Put16(count) + vlans
  }

  lemma RequestBytes(a: Node, o: Addr, full: bool, ttvn: u8, count: u16, vlans: Bytes)
    requires |vlans| == 8 * count && |vlans| + 8 <= 0xFFFF
    ensures
      var p := RequestTo(a, o, full, ttvn, count, vlans);
      var c := Container(4, 1, [if full then 0x12 else 2, ttvn, count / 256, count % 256] + vlans);
      && |p| == 28 + |vlans| && p[0] == PT_UTVLV && p[1] == COMPAT && p[4..10] == o && p[10..16] == a.own
      && |c.value| <= 0xFFFF && Requests(c)
      && Big(p[16], p[17]) == |p| - 20 && p[20..20 + Big(p[16], p[17])] == Laid(c)
  {
    var c := Container(4, 1, [if full then 0x12 else 2, ttvn, count / 256, count % 256] + vlans);
    var head := [PT_UTVLV, COMPAT, TTL_INIT, 0] + o + a.own + Put16(8 + |vlans|) + [0, 0];
    assert |head| == 20 && head[4..10] == o && head[10..16] == a.own;
    assert Big(head[16], head[17]) == 8 + |vlans|;
    assert |Laid(c)| == 8 + |vlans|;
    assert RequestTo(a, o, full, ttvn, count, vlans) == head + Laid(c);
    assert Requests(c);
    hide Laid, RequestTo, Requests;
    HeadThen(head, Laid(c));
  }

  lemma HeadThen(head: Bytes, tail: Bytes)
    requires |head| == 20
    ensures
      var p := head + tail;
      p[4..10] == head[4..10] && p[10..16] == head[10..16] && p[20..20 + |tail|] == tail
  {
  }

  // The node a request is for answers the one that sent it with its full table, if it knows it,
  // has a route to it and has not just answered it.
  lemma RequestIsAnswered(a: Node, b: Node, full: bool, ttvn: u8, count: u16, vlans: Bytes)
    requires Usable(a) && Usable(b) && |vlans| == 8 * count && |vlans| + 8 <= 0xFFFF
    ensures AnsweredTable(b, Dispatch(b, RequestTo(a, b.own, full, ttvn, count, vlans)), a.own, true)
  {
    var p := RequestTo(a, b.own, full, ttvn, count, vlans);
    var c := Container(4, 1, [if full then 0x12 else 2, ttvn, count / 256, count % 256] + vlans);
    RequestBytes(a, b.own, full, ttvn, count, vlans);
    hide *;
    ContainerAnswered(b, a.own, p, c);
  }

  // One request for this node, alone in its packet.
  lemma ContainerAnswered(n: Node, src: Addr, p: Bytes, c: Container)
    requires Usable(n) && |p| >= 20 && p[0] == PT_UTVLV && p[1] == COMPAT && Big(p[16], p[17]) <= |p| - 20
    requires p[4..10] == n.own && p[10..16] == src && |c.value| <= 0xFFFF && Requests(c)
    requires p[20..20 + Big(p[16], p[17])] == Laid(c)
    ensures AnsweredTable(n, Dispatch(n, p), src, true)
  {
    hide *;
    ToUs(n, p);
    OneAnswered(n, src, c, Dispatch(n, p));
  }

  // A packet of containers for this node.
  lemma ToUs(n: Node, p: Bytes)
    requires Usable(n) && |p| >= 20 && p[0] == PT_UTVLV && p[1] == COMPAT && Big(p[16], p[17]) <= |p| - 20
    requires p[4..10] == n.own
    ensures TableHandled(n, p[10..16], p[20..20 + Big(p[16], p[17])], Dispatch(n, p))
  {
    hide Utvlv, TableHandled, RelayedOn;
    UtvlvSends(n, p);
  }

  lemma OneAnswered(n: Node, src: Addr, c: Container, out: seq<Frame>)
    requires Usable(n) && |c.value| <= 0xFFFF && Requests(c) && TableHandled(n, src, Laid(c), out)
    ensures AnsweredTable(n, out, src, true)
  {
    OneContainer(c);
    assert Tail([]);
    hide Laid, Requests, Area, AnsweredTable, Short, Tail;
  }

  lemma OneContainer(c: Container)
    requires |c.value| <= 0xFFFF && Requests(c)
    ensures Short([c]) && Area([c]) + [] == Laid(c) && exists i :: 0 <= i < |[c]| && Requests([c][i])
  {
    assert [c][1..] == [];
    assert [c][0] == c;
  }

  // And an echo request is answered to whom it came from.
  lemma EchoIsAnswered(b: Node, p: Bytes)
    requires Usable(b) && |p| >= IC_HLEN && p[0] == PT_ICMP && p[1] == COMPAT && p[3] == ECHO_REQ && p[4..10] == b.own
    requires |p| < IC_RR_LEN
    ensures AnsweredBack(b, Dispatch(b, p), p, ECHO_REPLY)
  {
    BackSends(b, p, ECHO_REPLY);
    hide SendBack, AnsweredBack;
  }
}
