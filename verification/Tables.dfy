// The engine's cross-linked tables (main/bat/bat_orig.c, bat_elp.c, bat_ogm.c):
// originators with their candidates and routers, neighbours with reference counts, and
// the originators that own client rows and fragment slots.
module Tables {
  import opened Words
  import opened Counting

  const MAX_NEIGH: int := 8
  const MAX_ORIG: int := 32
  const CANDS: int := 4
  const EVICT_AGE_MS: int := 30000
  const CAND_TIMEOUT_MS: int := 200000
  const ORIG_TIMEOUT_MS: int := 400000
  const ROUTE_SWITCH_GAP: int := 5
  const SEQ_WINDOW: int := 64

  type Mac = seq<u8>

  // The two routing tables: toward the mesh, and for the interface ("J").
  datatype Tbl = Default | Iface

  datatype CandTbl = CandTbl(tput: u32, seqno: u32, ttl: nat, valid: bool)

  datatype Cand = Cand(used: bool, neigh: nat, lastSeen: u32, d: CandTbl, j: CandTbl) {
    function At(t: Tbl): CandTbl {
      if t.Default? then d else j
    }

    function With(t: Tbl, e: CandTbl): Cand {
      if t.Default? then this.(d := e) else this.(j := e)
    }
  }

  datatype Neigh = Neigh(used: bool, addr: Mac, orig: Mac, refs: nat, lastSeen: u32, elpSeq: u32)

  datatype Orig = Orig(used: bool, addr: Mac, lastSeen: u32, routerD: int, routerJ: int, cand: seq<Cand>) {
    function Router(t: Tbl): int {
      if t.Default? then routerD else routerJ
    }

    function WithRouter(t: Tbl, r: int): Orig {
      if t.Default? then this.(routerD := r) else this.(routerJ := r)
    }

    // A candidate through neighbour n.
    ghost predicate Via(n: nat) {
      exists c :: 0 <= c < |cand| && cand[c].used && cand[c].neigh == n
    }

    // At most one candidate per neighbour; none in an unused originator.
    ghost predicate CandsOk() {
      && |cand| == CANDS
      && (forall b, c :: 0 <= b < c < CANDS && cand[b].used && cand[c].used ==> cand[b].neigh != cand[c].neigh)
      && (!used ==> forall c :: 0 <= c < CANDS ==> !cand[c].used)
    }

    // The router is -1 or a used candidate that is valid in its table.
    ghost predicate RouterOk(t: Tbl) {
      var r := Router(t);
      r == -1 || (0 <= r < |cand| && cand[r].used && cand[r].At(t).valid)
    }

    ghost predicate RoutersOk() {
      used ==> RouterOk(Default) && RouterOk(Iface)
    }
  }

  const NO_TBL: CandTbl := CandTbl(0, 0, 0, false)
  const NO_CAND: Cand := Cand(false, 0, 0, NO_TBL, NO_TBL)
  const NO_NEIGH: Neigh := Neigh(false, [], [], 0, 0, 0)

  function NoCands(): seq<Cand> {
    seq(CANDS, i => NO_CAND)
  }

  function NoOrig(): Orig {
    Orig(false, [], 0, 0, 0, NoCands())
  }

  // The originators with a candidate through neighbour n.
  ghost function Holders(orig: seq<Orig>, n: nat): set<nat> {
    set i: nat | i < |orig| && orig[i].Via(n)
  }

  // Every candidate of o names a used neighbour.
  ghost predicate Named(neigh: seq<Neigh>, o: Orig) {
    forall m: nat :: o.Via(m) ==> m < |neigh| && neigh[m].used
  }

  // Candidates name used neighbours, and every neighbour counts its candidates, but perhaps
  // neighbour n.
  ghost predicate CountedBut(neigh: seq<Neigh>, orig: seq<Orig>, n: int) {
    && |neigh| == MAX_NEIGH && |orig| == MAX_ORIG
    && (forall i :: 0 <= i < MAX_ORIG ==> orig[i].CandsOk())
    && (forall i :: 0 <= i < MAX_ORIG ==> Named(neigh, orig[i]))
    && (forall m :: 0 <= m < MAX_NEIGH && m != n && neigh[m].used ==> neigh[m].refs == |Holders(orig, m)|)
  }

  ghost predicate Counted(neigh: seq<Neigh>, orig: seq<Orig>) {
    CountedBut(neigh, orig, -1)
  }

  ghost predicate Routed(orig: seq<Orig>) {
    forall i :: 0 <= i < |orig| ==> orig[i].RoutersOk()
  }

  // No two used entries under one address.
  ghost predicate UniqueAddrs(neigh: seq<Neigh>, orig: seq<Orig>) {
    && (forall i, j :: 0 <= i < j < |orig| && orig[i].used && orig[j].used ==> orig[i].addr != orig[j].addr)
    && (forall i, j :: 0 <= i < j < |neigh| && neigh[i].used && neigh[j].used ==> neigh[i].addr != neigh[j].addr)
  }

  ghost predicate Owned(orig: seq<Orig>, owners: set<nat>) {
    forall i :: i in owners ==> i < |orig| && orig[i].used
  }

  // ---- one originator rewritten ---------------------------------------------------------

  lemma HoldersUpdate(orig: seq<Orig>, i: nat, o: Orig, n: nat)
    requires i < |orig|
    ensures Holders(orig[i := o], n) == (if o.Via(n) then Holders(orig, n) + {i} else Holders(orig, n) - {i})
  {
    forall k: nat
      ensures k in Holders(orig[i := o], n) <==> if k == i then o.Via(n) else k in Holders(orig, n)
    {
      if k < |orig| && k != i {
        assert orig[i := o][k] == orig[k];
      }
    }
  }

  // o and o' have candidates through the same neighbours, but perhaps for n.
  ghost predicate SameVia(o: Orig, o': Orig, n: int) {
    forall m: nat :: m != n ==> (o'.Via(m) <==> o.Via(m))
  }

  lemma OthersCounted(neigh: seq<Neigh>, orig: seq<Orig>, i: nat, o: Orig, n: int)
    requires CountedBut(neigh, orig, n) && i < MAX_ORIG
    requires o.CandsOk() && SameVia(orig[i], o, n) && (n >= 0 && o.Via(n) ==> n < MAX_NEIGH && neigh[n].used)
    ensures CountedBut(neigh, orig[i := o], n)
  {
    assert Named(neigh, o) by {
      assert Named(neigh, orig[i]);
    }
    forall m | 0 <= m < MAX_NEIGH && m != n && neigh[m].used
      ensures neigh[m].refs == |Holders(orig[i := o], m)|
    {
      HoldersUpdate(orig, i, o, m);
      if o.Via(m) {
        assert Holders(orig, m) + {i} == Holders(orig, m);
      } else {
        assert Holders(orig, m) - {i} == Holders(orig, m);
      }
    }
  }

  // A candidate added or dropped, its neighbour's count following.
  lemma CandCounted(neigh: seq<Neigh>, orig: seq<Orig>, i: nat, o: Orig, n: nat)
    requires Counted(neigh, orig) && i < MAX_ORIG && n < MAX_NEIGH && neigh[n].used
    requires o.CandsOk() && SameVia(orig[i], o, n)
    ensures orig[i].Via(n) ==> neigh[n].refs > 0
    ensures
      var refs := neigh[n].refs + (if o.Via(n) then 1 else 0) - (if orig[i].Via(n) then 1 else 0);
      refs >= 0 && Counted(neigh[n := neigh[n].(refs := refs)], orig[i := o])
  {
    OthersCounted(neigh, orig, i, o, n);
    HoldersUpdate(orig, i, o, n);
    assert orig[i].Via(n) <==> i in Holders(orig, n);
    var refs := neigh[n].refs + (if o.Via(n) then 1 else 0) - (if orig[i].Via(n) then 1 else 0);
    assert refs == |Holders(orig[i := o], n)|;
    RefsSet(neigh, orig[i := o], n, refs);
  }

  lemma RefsSet(neigh: seq<Neigh>, orig: seq<Orig>, n: nat, refs: nat)
    requires CountedBut(neigh, orig, n) && n < MAX_NEIGH && refs == |Holders(orig, n)|
    ensures Counted(neigh[n := neigh[n].(refs := refs)], orig)
  {
    var neigh' := neigh[n := neigh[n].(refs := refs)];
    forall i | 0 <= i < MAX_ORIG
      ensures Named(neigh', orig[i])
    {
      assert Named(neigh, orig[i]);
    }
  }

  // Nothing about neighbours changed in originator i.
  lemma StillCounted(neigh: seq<Neigh>, orig: seq<Orig>, i: nat, o: Orig)
    requires Counted(neigh, orig) && i < MAX_ORIG
    requires o.CandsOk() && SameVia(orig[i], o, -1)
    ensures Counted(neigh, orig[i := o])
  {
    OthersCounted(neigh, orig, i, o, -1);
  }

  // A neighbour entry nobody names is rewritten.
  lemma NeighRewritten(neigh: seq<Neigh>, orig: seq<Orig>, n: nat, e: Neigh)
    requires CountedBut(neigh, orig, n) && n < MAX_NEIGH && Holders(orig, n) == {}
    requires e.used ==> e.refs == 0
    ensures Counted(neigh[n := e], orig)
  {
    forall i: nat | i < MAX_ORIG
      ensures Named(neigh[n := e], orig[i])
    {
      assert Named(neigh, orig[i]);
      assert i !in Holders(orig, n);
    }
  }

  lemma NobodyNames(neigh: seq<Neigh>, orig: seq<Orig>, n: nat)
    requires Counted(neigh, orig) && n < MAX_NEIGH && (!neigh[n].used || neigh[n].refs == 0)
    ensures Holders(orig, n) == {}
  {
    forall i: nat | i < |orig|
      ensures !orig[i].Via(n) || neigh[n].used
    {
      assert Named(neigh, orig[i]);
    }
  }

  // ---- candidates of one originator ---------------------------------------------------------

  lemma DropCand(o: Orig, c: nat, e: Cand)
    requires o.CandsOk() && c < CANDS && o.cand[c].used && !e.used
    ensures
      var o' := o.(cand := o.cand[c := e]);
      o'.CandsOk() && SameVia(o, o', o.cand[c].neigh) && !o'.Via(o.cand[c].neigh) && o.Via(o.cand[c].neigh)
  {
    var o' := o.(cand := o.cand[c := e]);
    forall m: nat | m != o.cand[c].neigh
      ensures o'.Via(m) <==> o.Via(m)
    {
      if o.Via(m) {
        var k :| 0 <= k < CANDS && o.cand[k].used && o.cand[k].neigh == m;
        assert o'.cand[k] == o.cand[k];
      }
    }
  }

  lemma AddCand(o: Orig, c: nat, n: nat, e: Cand)
    requires o.CandsOk() && o.used && c < CANDS && !o.cand[c].used && !o.Via(n)
    requires e.used && e.neigh == n
    ensures
      var o' := o.(cand := o.cand[c := e]);
      o'.CandsOk() && SameVia(o, o', n) && o'.Via(n)
  {
    var o' := o.(cand := o.cand[c := e]);
    assert o'.cand[c] == e;
    forall m: nat | m != n
      ensures o'.Via(m) <==> o.Via(m)
    {
      if o.Via(m) {
        var k :| 0 <= k < CANDS && o.cand[k].used && o.cand[k].neigh == m;
        assert o'.cand[k] == o.cand[k];
      }
    }
  }

  lemma KeepCand(o: Orig, c: nat, e: Cand)
    requires o.CandsOk() && c < CANDS && e.used == o.cand[c].used && e.neigh == o.cand[c].neigh
    ensures
      var o' := o.(cand := o.cand[c := e]);
      o'.CandsOk() && SameVia(o, o', -1)
  {
    var o' := o.(cand := o.cand[c := e]);
    forall m: nat
      ensures o'.Via(m) <==> o.Via(m)
    {
      if k :| 0 <= k < CANDS && o.cand[k].used && o.cand[k].neigh == m {
        assert o'.cand[k].used && o'.cand[k].neigh == m;
      }
      if k :| 0 <= k < CANDS && o'.cand[k].used && o'.cand[k].neigh == m {
        assert o.cand[k].used && o.cand[k].neigh == m;
      }
    }
  }

  // ---- routers ---------------------------------------------------------------------------

  // r is the first of the used candidates valid in table t with the highest throughput.
  ghost predicate Best(cand: seq<Cand>, t: Tbl, n: nat, r: int)
    requires n <= |cand|
  {
    if r == -1 then forall c :: 0 <= c < n ==> !(cand[c].used && cand[c].At(t).valid)
    else
      && 0 <= r < n && cand[r].used && cand[r].At(t).valid
      && (forall c :: 0 <= c < n && cand[c].used && cand[c].At(t).valid ==>
            cand[c].At(t).tput < cand[r].At(t).tput || (cand[c].At(t).tput == cand[r].At(t).tput && r <= c))
  }

  lemma RoutersKept(orig: seq<Orig>, i: nat, o: Orig)
    requires Routed(orig) && i < |orig| && o.RoutersOk()
    ensures Routed(orig[i := o])
  {
  }

  // The same entries, but perhaps for their counts.
  ghost predicate SameAddrs(neigh: seq<Neigh>, neigh': seq<Neigh>) {
    |neigh'| == |neigh| && forall i :: 0 <= i < |neigh| ==> neigh'[i] == neigh[i].(refs := neigh'[i].refs)
  }

  ghost predicate SamePlace(o: Orig, o': Orig) {
    o'.used == o.used && o'.addr == o.addr
  }

  lemma AddrsKept(neigh: seq<Neigh>, orig: seq<Orig>, neigh': seq<Neigh>, i: nat, o: Orig)
    requires UniqueAddrs(neigh, orig) && SameAddrs(neigh, neigh') && i < |orig| && SamePlace(orig[i], o)
    ensures UniqueAddrs(neigh', orig[i := o])
  {
  }

  lemma OwnersKept(orig: seq<Orig>, owners: set<nat>, i: nat, o: Orig)
    requires Owned(orig, owners) && i < |orig| && (o.used || i !in owners)
    ensures Owned(orig[i := o], owners)
  {
  }

  class Tables {
    const neigh: array<Neigh>
    const orig: array<Orig>
    var ttOwners: set<nat>      // originators that have client rows
    var fragOwners: set<nat>    // and those that hold fragment slots

    // Everything but the routers, which are out of date while candidates go, and but the
    // count of neighbour n.
    ghost predicate LinkedBut(n: int)
      reads this, neigh, orig
    {
      && neigh.Length == MAX_NEIGH && orig.Length == MAX_ORIG
      && CountedBut(neigh[..], orig[..], n)
      && UniqueAddrs(neigh[..], orig[..])
      && Owned(orig[..], ttOwners) && Owned(orig[..], fragOwners)
    }

    ghost predicate Linked()
      reads this, neigh, orig
    {
      LinkedBut(-1)
    }

    ghost predicate Valid()
      reads this, neigh, orig
    {
      Linked() && Routed(orig[..])
    }

    constructor ()
      ensures Valid() && fresh(neigh) && fresh(orig) && ttOwners == {} && fragOwners == {}
    {
      neigh := new Neigh[MAX_NEIGH](i => NO_NEIGH);
      orig := new Orig[MAX_ORIG](i => NoOrig());
      ttOwners, fragOwners := {}, {};
      new;
      NoCandsOk(NoOrig());
      forall n: nat
        ensures Holders(orig[..], n) == {}
      {
      }
    }

    // bat_route_nh: the next hop's index, or -1.
    function RouteNh(i: nat, t: Tbl): int
      requires neigh.Length == MAX_NEIGH && orig.Length == MAX_ORIG && i < MAX_ORIG
      reads neigh, orig
    {
      var o := orig[i];
      var r := o.Router(t);
      if r < 0 || r >= |o.cand| || !o.cand[r].used || o.cand[r].neigh >= MAX_NEIGH || !neigh[o.cand[r].neigh].used
      then -1 else o.cand[r].neigh
    }

    // An originator counts as routed exactly when it has a next hop.
    lemma RoutedHasNextHop(i: nat, t: Tbl)
      requires Valid() && i < MAX_ORIG && orig[i].used
      ensures orig[i].Router(t) >= 0 <==> RouteNh(i, t) >= 0
    {
      var o := orig[i];
      assert orig[..][i].RoutersOk() && Named(neigh[..], orig[..][i]);
      if o.Router(t) >= 0 {
        assert o.Via(o.cand[o.Router(t)].neigh);
      }
    }

    method BestCand(o: Orig, t: Tbl) returns (best: int)
      requires |o.cand| == CANDS
      ensures -1 <= best < CANDS && Best(o.cand, t, CANDS, best)
    {
      best := -1;
      for i := 0 to CANDS
        invariant -1 <= best < i && Best(o.cand, t, i, best)
      {
        if o.cand[i].used && o.cand[i].At(t).valid && (best < 0 || o.cand[i].At(t).tput > o.cand[best].At(t).tput) {
          best := i;
        }
      }
    }

    // The routers of originator i become the best candidates left; one lost tells TT.
    method Recompute(i: nat, ghost n: int)
      requires LinkedBut(n) && i < MAX_ORIG && orig[i].used
      modifies orig, `ttOwners
      ensures LinkedBut(n) && orig[i].RoutersOk()
      ensures Best(orig[i].cand, Default, CANDS, orig[i].routerD) && Best(orig[i].cand, Iface, CANDS, orig[i].routerJ)
      ensures orig[..] == old(orig[..])[i := old(orig[i]).(routerD := orig[i].routerD, routerJ := orig[i].routerJ)]
      ensures ttOwners == if (old(orig[i]).routerD >= 0 > orig[i].routerD)
                             || (old(orig[i]).routerJ >= 0 > orig[i].routerJ)
                          then old(ttOwners) - {i} else old(ttOwners)
    {
      var o := orig[i];
      var d := BestCand(o, Default);
      var j := BestCand(o, Iface);
      var o' := o.(routerD := d, routerJ := j);
      OthersCounted(neigh[..], orig[..], i, o', n);
      AddrsKept(neigh[..], orig[..], neigh[..], i, o');
      OwnersKept(orig[..], ttOwners, i, o');
      OwnersKept(orig[..], fragOwners, i, o');
      hide CountedBut, UniqueAddrs, Owned;
      ghost var was := orig[..];
      orig[i] := o';
      assert orig[..] == was[i := o'];
      if (o.routerD >= 0 && d < 0) || (o.routerJ >= 0 && j < 0) {
        OwnerGone(orig[..], ttOwners, i);
        ttOwners := ttOwners - {i};
      }
    }

    // A candidate goes, and its neighbour counts one less.
    method CandFree(i: nat, c: nat)
      requires Linked() && i < MAX_ORIG && c < CANDS && |orig[i].cand| == CANDS
      modifies neigh, orig
      ensures Linked() && SameAddrs(old(neigh[..]), neigh[..])
      ensures orig[..] == old(orig[..])[i := old(orig[i]).(cand := orig[i].cand)]
      ensures orig[i].cand == if old(orig[i]).cand[c].used then old(orig[i]).cand[c := NO_CAND] else old(orig[i]).cand
    {
      ghost var wasN, wasO := neigh[..], orig[..];
      var o := orig[i];
      if !o.cand[c].used {
        assert orig[..] == wasO[i := o];
        return;
      }
      var n := o.cand[c].neigh;
      var o' := o.(cand := o.cand[c := NO_CAND]);
      FreeFacts(wasN, wasO, i, c);
      hide CountedBut, UniqueAddrs, Owned;
      OwnersKept(wasO, ttOwners, i, o');
      OwnersKept(wasO, fragOwners, i, o');
      if neigh[n].used && neigh[n].refs > 0 {
        neigh[n] := neigh[n].(refs := neigh[n].refs - 1);
      }
      assert neigh[..] == wasN[n := wasN[n].(refs := wasN[n].refs - 1)];
      AddrsKept(wasN, wasO, neigh[..], i, o');
      orig[i] := o';
      assert orig[..] == wasO[i := o'];
    }

    method OrigFind(addr: Mac) returns (r: int)
      requires orig.Length == MAX_ORIG
      ensures -1 <= r < MAX_ORIG
      ensures if r == -1 then NoAddr(orig[..], addr) else orig[r].used && orig[r].addr == addr
    {
      for i := 0 to MAX_ORIG
        invariant forall j :: 0 <= j < i ==> !(orig[j].used && orig[j].addr == addr)
      {
        if orig[i].used && orig[i].addr == addr {
          return i;
        }
      }
      return -1;
    }

    // Tells TT and fragments, releases the candidates, empties the slot.
    method OrigFree(i: nat)
      requires Valid() && i < MAX_ORIG && orig[i].used
      modifies this, neigh, orig
      ensures Valid() && SameAddrs(old(neigh[..]), neigh[..])
      ensures orig[..] == old(orig[..])[i := NoOrig()]
      ensures ttOwners == old(ttOwners) - {i} && fragOwners == old(fragOwners) - {i}
    {
      ghost var was, wasN := orig[..], neigh[..];
      OwnerGone(orig[..], ttOwners, i);
      OwnerGone(orig[..], fragOwners, i);
      assert orig[..][i].CandsOk();
      ttOwners := ttOwners - {i};
      fragOwners := fragOwners - {i};
      for c := 0 to CANDS
        invariant Linked() && SameAddrs(wasN, neigh[..]) && i !in ttOwners && i !in fragOwners
        invariant ttOwners == old(ttOwners) - {i} && fragOwners == old(fragOwners) - {i}
        invariant |orig[i].cand| == CANDS && orig[..] == was[i := was[i].(cand := orig[i].cand)]
        invariant forall b :: 0 <= b < c ==> !orig[i].cand[b].used
      {
        hide CountedBut, UniqueAddrs, Owned, Routed;
        CandFree(i, c);
      }
      EmptySlot(neigh[..], orig[..], i, NoOrig());
      OwnersKept(orig[..], ttOwners, i, NoOrig());
      OwnersKept(orig[..], fragOwners, i, NoOrig());
      RoutersKept(was, i, NoOrig());
      hide CountedBut, UniqueAddrs, Owned, Routed;
      ghost var mid := orig[..];
      orig[i] := NoOrig();
      assert orig[..] == mid[i := NoOrig()] == was[i := NoOrig()];
    }

    // The neighbour whose own originator this address is.
    method IsNeighOrig(addr: Mac) returns (b: bool)
      requires neigh.Length == MAX_NEIGH
      ensures b <==> NeighOrig(neigh[..], addr)
    {
      for i := 0 to MAX_NEIGH
        invariant forall j :: 0 <= j < i ==> !(neigh[j].used && neigh[j].orig == addr)
      {
        if neigh[i].used && neigh[i].orig == addr {
          assert neigh[..][i].used;
          return true;
        }
      }
      return false;
    }

    function RouteTput(i: nat): u32
      requires orig.Length == MAX_ORIG && i < MAX_ORIG
      reads orig
    {
      TputOf(orig[i])
    }

    // Lowest default-route throughput among originators that are no neighbour's own.
    method WorstRouted(now: u32) returns (w: int)
      requires Valid()
      ensures -1 <= w < MAX_ORIG
      ensures Worst(neigh[..], orig[..], MAX_ORIG, w, now)
    {
      hide CountedBut, UniqueAddrs, Owned, Routed, TputOf, NeighOrig, Age;
      w := -1;
      for i := 0 to MAX_ORIG
        invariant -1 <= w < i
        invariant Worst(neigh[..], orig[..], i, w, now)
      {
        var own := IsNeighOrig(orig[i].addr);
        if !orig[i].used || own {
          continue;
        }
        if w < 0 {
          w := i;
          continue;
        }
        var t, tw := RouteTput(i), RouteTput(w);
        if t < tw || (t == tw && Age(now, orig[i].lastSeen) > Age(now, orig[w].lastSeen)) {
          w := i;
        }
      }
    }

    // Find or create; -1 when full.
    method OrigGet(addr: Mac, forNeigh: bool, now: u32) returns (r: int)
      requires Valid()
      modifies this, neigh, orig
      ensures Valid() && -1 <= r < MAX_ORIG && SameAddrs(old(neigh[..]), neigh[..])
      ensures r != -1 ==> orig[r].used && orig[r].addr == addr
      ensures r == -1 || old(orig[r].used && orig[r].addr == addr) ==>
        orig[..] == old(orig[..]) && ttOwners == old(ttOwners) && fragOwners == old(fragOwners)
      ensures r != -1 <==> Admits(old(neigh[..]), old(orig[..]), addr, forNeigh, now)
      ensures r == -1 ==> NoAddr(orig[..], addr)
      ensures r != -1 && !old(orig[r].used && orig[r].addr == addr) ==>
        && NoAddr(old(orig[..]), addr)
        && orig[..] == old(orig[..])[r := NewOrig(addr, now)]
        && ttOwners == old(ttOwners) - {r} && fragOwners == old(fragOwners) - {r}
        && Replaced(old(ttOwners) + old(fragOwners), old(orig[..]), orig[..], r)
        && (old(orig[r].used) ==> Displaceable(old(neigh[..]), old(orig[..]), r, forNeigh, now)
                                  && forall i :: 0 <= i < MAX_ORIG ==> old(orig[i].used))
    {
      ghost var was, wasN, owning := orig[..], neigh[..], ttOwners + fragOwners;
      assert Owned(was, owning);
      r := OrigFind(addr);
      if r != -1 {
        AdmitsFound(wasN, was, addr, forNeigh, now, r);
        return;
      }
      var slot, oldest := FreeOrStale(now);
      if slot < 0 && oldest < 0 && forNeigh {
        oldest := WorstRouted(now);
        WorstChosen(wasN, was, oldest, now);
      } else if slot < 0 {
        StaleChosen(wasN, was, oldest, forNeigh, now);
      }
      if slot >= 0 || oldest >= 0 {
        AdmitsAt(wasN, was, addr, forNeigh, now, if slot >= 0 then slot else oldest);
      } else {
        assert !Admits(wasN, was, addr, forNeigh, now) by {
          hide Displaceable;
        }
      }
      hide *;
      if slot < 0 {
        if oldest < 0 {
          return -1;
        }
        OrigFree(oldest);
        FreedNoAddr(was, oldest, addr);
        slot := oldest;
      }
      Place(slot, addr, now);
      PlacedOver(was, slot, addr, now);
      ReplacedBy(owning, was, slot, addr, now);
      r := slot;
    }

    // A free slot takes a new originator.
    method Place(i: nat, addr: Mac, now: u32)
      requires Valid() && i < MAX_ORIG && !orig[i].used && NoAddr(orig[..], addr)
      modifies orig
      ensures Valid() && orig[..] == old(orig[..])[i := NewOrig(addr, now)] && orig[i] == NewOrig(addr, now)
    {
      ghost var was := orig[..];
      assert was[i].CandsOk();
      var o := NewOrig(addr, now);
      EmptySlot(neigh[..], was, i, o);
      OwnersKept(was, ttOwners, i, o);
      OwnersKept(was, fragOwners, i, o);
      RoutersKept(was, i, o);
      hide CountedBut, UniqueAddrs, Owned, Routed;
      orig[i] := o;
      assert orig[..] == was[i := o];
    }

    // The first free slot, or the longest-unheard originator without a default route.
    method FreeOrStale(now: u32) returns (slot: int, oldest: int)
      requires Valid()
      ensures -1 <= slot < MAX_ORIG && -1 <= oldest < MAX_ORIG
      ensures if slot != -1 then !orig[slot].used else forall j :: 0 <= j < MAX_ORIG ==> orig[j].used
      ensures slot == -1 ==> Stale(orig[..], MAX_ORIG, oldest, now)
    {
      slot, oldest := -1, -1;
      hide CountedBut, UniqueAddrs, Owned, Routed, Age;
      for i := 0 to MAX_ORIG
        invariant slot == -1 && -1 <= oldest < i
        invariant forall j :: 0 <= j < i ==> orig[j].used
        invariant Stale(orig[..], i, oldest, now)
      {
        if !orig[i].used {
          slot := i;
          return;
        }
        if orig[i].routerD >= 0 || Age(now, orig[i].lastSeen) <= EVICT_AGE_MS {
          continue;
        }
        if oldest < 0 || Age(now, orig[i].lastSeen) > Age(now, orig[oldest].lastSeen) {
          oldest := i;
        }
      }
    }

    // Find or create originator i's candidate through neighbour n: this never fails, since
    // only two of four candidates can be routers.
    method CandGet(i: nat, n: nat, now: u32) returns (c: nat)
      requires Valid() && i < MAX_ORIG && orig[i].used && n < MAX_NEIGH && neigh[n].used
      modifies neigh, orig
      ensures Valid() && SameAddrs(old(neigh[..]), neigh[..])
      ensures c < CANDS && |orig[i].cand| == CANDS && orig[i].cand[c].used && orig[i].cand[c].neigh == n
      ensures orig[..] == old(orig[..])[i := old(orig[i]).(cand := old(orig[i]).cand[c := orig[i].cand[c]])]
      ensures old(orig[i].cand[c].used && orig[i].cand[c].neigh == n) ==>
        orig[..] == old(orig[..]) && neigh[..] == old(neigh[..])
      // A new one takes a free place, or the least recently heard that is no router.
      ensures !old(orig[i].cand[c].used && orig[i].cand[c].neigh == n) ==>
        orig[i].cand[c] == NewCand(n, now) && CandPlace(old(orig[i]), c, now)
    {
      ghost var was, o0 := orig[..], orig[i];
      assert was[i].CandsOk() && was[i].RoutersOk();
      for k := 0 to CANDS
        invariant forall b :: 0 <= b < k ==> !(o0.cand[b].used && o0.cand[b].neigh == n)
      {
        if orig[i].cand[k].used && orig[i].cand[k].neigh == n {
          assert o0.cand[k := o0.cand[k]] == o0.cand;
          return k;
        }
      }
      var slot, oldest := FreeCand(i, now);
      NoneVia(o0, n, slot);
      if slot < 0 {
        PlaceExists(o0, oldest, n, now);
        FreedKeepsRouters(was, i, oldest);
        CandFree(i, oldest);
        assert orig[..] == was[i := o0.(cand := o0.cand[oldest := NO_CAND])];
        slot := oldest;
      }
      assert CandPlace(o0, slot, now) && CandFits(orig[i], slot, n);
      hide *;
      CandPut(i, slot, n, now);
      c := slot;
      ReplacedOnce(was, i, o0, c, NewCand(n, now));
    }

    method CandPut(i: nat, c: nat, n: nat, now: u32)
      requires Valid() && i < MAX_ORIG && orig[i].used && n < MAX_NEIGH && neigh[n].used
      requires c < CANDS && CandFits(orig[i], c, n)
      modifies neigh, orig
      ensures Valid() && SameAddrs(old(neigh[..]), neigh[..])
      ensures orig[..] == old(orig[..])[i := old(orig[i]).(cand := old(orig[i]).cand[c := NewCand(n, now)])]
    {
      ghost var was, wasN := orig[..], neigh[..];
      ghost var o' := was[i].(cand := was[i].cand[c := NewCand(n, now)]);
      AddCand(was[i], c, n, NewCand(n, now));
      CandCounted(wasN, was, i, o', n);
      RoutersKept(was, i, o');
      OwnersKept(was, ttOwners, i, o');
      OwnersKept(was, fragOwners, i, o');
      hide CountedBut, UniqueAddrs, Owned, Routed;
      orig[i] := orig[i].(cand := orig[i].cand[c := NewCand(n, now)]);
      neigh[n] := neigh[n].(refs := neigh[n].refs + 1);
      assert orig[..] == was[i := o'];
      assert neigh[..] == wasN[n := wasN[n].(refs := wasN[n].refs + 1)];
      AddrsKept(wasN, was, neigh[..], i, o');
    }

    method FreeCand(i: nat, now: u32) returns (slot: int, oldest: int)
      requires orig.Length == MAX_ORIG && i < MAX_ORIG && |orig[i].cand| == CANDS
      ensures -1 <= slot < CANDS && -1 <= oldest < CANDS
      ensures if slot != -1 then !orig[i].cand[slot].used else SpareCand(orig[i], CANDS, oldest, now)
    {
      slot, oldest := -1, -1;
      var o := orig[i];
      for k := 0 to CANDS
        invariant slot == -1 && -1 <= oldest < k && SpareCand(o, k, oldest, now)
      {
        var c := o.cand[k];
        if !c.used {
          slot := k;
          return;
        }
        SpareNext(o, k, oldest, now);
        hide Age, SpareCand;
        if o.routerD == k || o.routerJ == k {
          continue;
        }
        if oldest < 0 || Age(now, c.lastSeen) > Age(now, o.cand[oldest].lastSeen) {
          oldest := k;
        }
      }
    }

    method NeighFind(hard: Mac) returns (r: int)
      requires neigh.Length == MAX_NEIGH
      ensures -1 <= r < MAX_NEIGH
      ensures if r == -1 then NoNeigh(neigh[..], hard) else neigh[r].used && neigh[r].addr == hard
    {
      for i := 0 to MAX_NEIGH
        invariant forall j :: 0 <= j < i ==> !(neigh[j].used && neigh[j].addr == hard)
      {
        if neigh[i].used && neigh[i].addr == hard {
          return i;
        }
      }
      return -1;
    }

    // Originator i loses its candidate through neighbour n, if it has one. The count of n is
    // not kept: the neighbour itself is going.
    method Forget(i: nat, n: nat)
      requires LinkedBut(n) && i < MAX_ORIG && n < MAX_NEIGH && orig[i].used && orig[i].RoutersOk()
      modifies orig, `ttOwners
      ensures LinkedBut(n) && orig[i].RoutersOk() && !orig[i].Via(n)
      ensures orig[..] == old(orig[..])[i := orig[i]]
              && Rerouted(old(orig[i]), WithoutVia(old(orig[i]).cand, n), orig[i])
      ensures ttOwners == if Lost(old(orig[i]), orig[i]) then old(ttOwners) - {i} else old(ttOwners)
    {
      var hit := false;
      ghost var was := orig[..];
      assert was[i].CandsOk();
      for c := 0 to CANDS
        invariant LinkedBut(n) && ttOwners == old(ttOwners)
        invariant orig[..] == was[i := was[i].(cand := orig[i].cand)] && |orig[i].cand| == CANDS
        invariant forall b :: 0 <= b < CANDS ==>
          orig[i].cand[b] == if b < c then WithoutVia(was[i].cand, n)[b] else was[i].cand[b]
        invariant hit <==> exists b :: 0 <= b < c && was[i].cand[b].used && was[i].cand[b].neigh == n
      {
        if orig[i].cand[c].used && orig[i].cand[c].neigh == n {
          ghost var mid, o := orig[..], orig[i];
          ghost var o' := o.(cand := o.cand[c := o.cand[c].(used := false)]);
          assert mid[i].CandsOk();
          DropCand(o, c, o.cand[c].(used := false));
          OthersCounted(neigh[..], mid, i, o', n);
          AddrsKept(neigh[..], mid, neigh[..], i, o');
          OwnersKept(mid, ttOwners, i, o');
          OwnersKept(mid, fragOwners, i, o');
          hide CountedBut, UniqueAddrs, Owned;
          orig[i] := orig[i].(cand := orig[i].cand[c := orig[i].cand[c].(used := false)]);
          assert orig[..] == mid[i := o'];
          hit := true;
        }
      }
      ForgetDone(was[i], n, orig[i].cand, hit);
      if hit {
        Recompute(i, n);
      }
      assert orig[..] == was[i := orig[i]];
    }

    // Every candidate through neighbour n goes, then the neighbour.
    method NeighEvict(n: nat)
      requires Valid() && n < MAX_NEIGH
      modifies this, neigh, orig
      ensures Valid() && neigh[..] == old(neigh[..])[n := NO_NEIGH]
      ensures Evicting(old(orig[..]), orig[..], n, MAX_ORIG)
      ensures fragOwners == old(fragOwners) && OwnersLeft(old(ttOwners), old(orig[..]), ttOwners, orig[..])
    {
      ghost var was, wasN := orig[..], neigh[..];
      for i := 0 to MAX_ORIG
        invariant LinkedBut(n) && Routed(orig[..])
        invariant Evicting(was, orig[..], n, i) && OwnersLeft(old(ttOwners), was, ttOwners, orig[..])
        invariant neigh[..] == wasN && fragOwners == old(fragOwners)
      {
        ghost var mid, owners := orig[..], ttOwners;
        if orig[i].used {
          assert mid[i].RoutersOk();
          hide CountedBut, UniqueAddrs, Owned, Evicting, OwnersLeft, Rerouted, Lost;
          Forget(i, n);
          RoutersKept(mid, i, orig[i]);
        }
        hide CountedBut, UniqueAddrs, Owned, Routed, Lost, Rerouted, OwnersLeft, Evicting;
        assert orig[..] == mid[i := orig[i]];
        EvictNext(was, mid, n, i, orig[i]);
        OwnersNext(old(ttOwners), was, owners, mid, i, orig[i], n);
      }
      assert Holders(orig[..], n) == {} by {
        EvictedAll(neigh[..], was, orig[..], n);
      }
      NeighRewritten(neigh[..], orig[..], n, NO_NEIGH);
      NeighAddrs(neigh[..], orig[..], n, NO_NEIGH);
      hide CountedBut, UniqueAddrs, Owned, Routed, Evicting, OwnersLeft;
      neigh[n] := NO_NEIGH;
      assert neigh[..] == wasN[n := NO_NEIGH];
    }

    method OldestNeigh(now: u32) returns (slot: int, oldest: int)
      requires neigh.Length == MAX_NEIGH
      ensures -1 <= slot < MAX_NEIGH && -1 <= oldest < MAX_NEIGH
      ensures if slot != -1 then !neigh[slot].used
              else 0 <= oldest && forall j :: 0 <= j < MAX_NEIGH ==>
                     neigh[j].used && Age(now, neigh[j].lastSeen) <= Age(now, neigh[oldest].lastSeen)
    {
      slot, oldest := -1, -1;
      hide Age;
      for i := 0 to MAX_NEIGH
        invariant slot == -1 && -1 <= oldest < i && (i > 0 ==> oldest >= 0)
        invariant forall j :: 0 <= j < i ==>
          neigh[j].used && oldest >= 0 && Age(now, neigh[j].lastSeen) <= Age(now, neigh[oldest].lastSeen)
      {
        if !neigh[i].used {
          slot := i;
          return;
        }
        if oldest < 0 || Age(now, neigh[i].lastSeen) > Age(now, neigh[oldest].lastSeen) {
          oldest := i;
        }
      }
    }

    // Find or create; a full table gives up the neighbour silent longest, if for over 30 s.
    method NeighGet(hard: Mac, own: Mac, now: u32) returns (r: int)
      requires Valid()
      modifies this, neigh, orig
      ensures Valid() && -1 <= r < MAX_NEIGH && SamePlaces(old(orig[..]), orig[..])
      ensures r != -1 ==> neigh[r].used && neigh[r].addr == hard
      // A new one takes a free entry, or that of the neighbour silent longest.
      ensures r != -1 && !old(neigh[r].used && neigh[r].addr == hard) ==>
        && NoNeigh(old(neigh[..]), hard)
        && neigh[..] == old(neigh[..])[r := Neigh(true, hard, own, 0, now, 0)]
        && NeighPlace(old(neigh[..]), r, now)
        && if old(neigh[r].used) then Evicting(old(orig[..]), orig[..], r, MAX_ORIG) else orig[..] == old(orig[..])
      ensures r == -1 || old(neigh[r].used && neigh[r].addr == hard) ==>
        neigh[..] == old(neigh[..]) && orig[..] == old(orig[..])
      ensures r == -1 <==> NoNeigh(old(neigh[..]), hard) && AllLive(old(neigh[..]), now)
      ensures fragOwners == old(fragOwners) && OwnersLeft(old(ttOwners), old(orig[..]), ttOwners, orig[..])
    {
      ghost var was, wasN := orig[..], neigh[..];
      OwnersSame(ttOwners, was);
      r := NeighFind(hard);
      if r != -1 {
        assert wasN[r].addr == hard;
        return;
      }
      var slot, oldest := OldestNeigh(now);
      hide Age, CountedBut, UniqueAddrs, Owned, Routed;
      if slot < 0 {
        if Age(now, neigh[oldest].lastSeen) <= EVICT_AGE_MS {
          return -1;
        }
        assert !AllLive(wasN, now) by {
          assert Age(now, wasN[oldest].lastSeen) > EVICT_AGE_MS;
        }
        NeighEvict(oldest);
        EvictedPlaces(was, orig[..], oldest);
        slot := oldest;
      } else {
        assert !AllLive(wasN, now) by {
          assert !wasN[slot].used;
        }
      }
      NobodyNames(neigh[..], orig[..], slot);
      var e := Neigh(true, hard, own, 0, now, 0);
      CountedForget(neigh[..], orig[..], slot);
      NeighRewritten(neigh[..], orig[..], slot, e);
      NeighAddrs(neigh[..], orig[..], slot, e);
      ghost var mid := neigh[..];
      neigh[slot] := e;
      assert neigh[..] == mid[slot := e];
      assert neigh[..] == wasN[slot := e];
      r := slot;
    }

    // The store of an accepted record in table t, and the choice between its candidate and
    // the router it has (select_router).
    method Store(i: nat, c: nat, t: Tbl, seqno: u32, ttl: nat, tput: u32, now: u32)
      requires Valid() && i < MAX_ORIG && c < CANDS && orig[i].used && |orig[i].cand| == CANDS && orig[i].cand[c].used
      modifies orig
      ensures Valid() && orig[i].used && |orig[i].cand| == CANDS && orig[i].cand[c].used
      ensures SamePlace(old(orig[i]), orig[i]) && orig[..] == old(orig[..])[i := orig[i]]
      ensures Told(old(orig[i]), orig[i], c, t, CandTbl(tput, seqno, ttl, true), now)
    {
      ghost var was := orig[..];
      var o := orig[i];
      assert was[i].CandsOk() && was[i].RoutersOk();
      var e := o.cand[c].With(t, CandTbl(tput, seqno, ttl, true)).(lastSeen := now);
      var o1 := o.(cand := o.cand[c := e], lastSeen := now);
      var r := o1.Router(t);
      var keep := r == c;
      if r >= 0 && r != c && o1.cand[r].used && o1.cand[r].At(t).valid {
        var gap := SDiff(seqno, o1.cand[r].At(t).seqno);
        keep := gap < ROUTE_SWITCH_GAP && o1.cand[r].At(t).tput >= tput;
      }
      var o2 := if keep then o1 else o1.WithRouter(t, c);
      KeepCand(o, c, e);
      SameCands(o, o.(cand := o.cand[c := e]), o2);
      StillCounted(neigh[..], was, i, o2);
      AddrsKept(neigh[..], was, neigh[..], i, o2);
      OwnersKept(was, ttOwners, i, o2);
      OwnersKept(was, fragOwners, i, o2);
      RoutersKept(was, i, o2);
      hide CountedBut, UniqueAddrs, Owned, Routed, SDiff;
      orig[i] := o2;
      assert orig[..] == was[i := o2];
    }

    // Originator i, still wanted, loses its stale candidates.
    method PurgeCands(i: nat, now: u32)
      requires Valid() && i < MAX_ORIG && orig[i].used
      modifies this, neigh, orig
      ensures Valid() && orig[..] == old(orig[..])[i := orig[i]]
      ensures Rerouted(old(orig[i]), FreshCands(old(orig[i]).cand, now), orig[i])
      ensures SameAddrs(old(neigh[..]), neigh[..]) && fragOwners == old(fragOwners)
      ensures ttOwners == if Lost(old(orig[i]), orig[i]) then old(ttOwners) - {i} else old(ttOwners)
    {
      ghost var was, wasN := orig[..], neigh[..];
      assert was[i].CandsOk() && was[i].RoutersOk();
      var del := false;
      for c := 0 to CANDS
        invariant Linked() && SameAddrs(wasN, neigh[..]) && fragOwners == old(fragOwners) && ttOwners == old(ttOwners)
        invariant |orig[i].cand| == CANDS && orig[..] == was[i := was[i].(cand := orig[i].cand)]
        invariant forall b :: 0 <= b < CANDS ==>
          orig[i].cand[b] == if b < c then FreshCands(was[i].cand, now)[b] else was[i].cand[b]
        invariant del <==> exists b :: 0 <= b < c && StaleCand(was[i].cand[b], now)
      {
        hide CountedBut, UniqueAddrs, Owned, Age;
        if orig[i].cand[c].used && Age(now, orig[i].cand[c].lastSeen) > CAND_TIMEOUT_MS {
          CandFree(i, c);
          del := true;
        }
      }
      PurgeDone(was[i], now, orig[i].cand, del);
      if del {
        Recompute(i, -1);
      }
      assert orig[..] == was[i := orig[i]];
      RoutersKept(was, i, orig[i]);
    }

    // bat_orig_purge: exactly the originators and candidates not heard in time go, and then the
    // neighbours nobody names.
    method Purge(now: u32)
      requires Valid()
      modifies this, neigh, orig
      ensures Valid() && Purging(old(orig[..]), orig[..], MAX_ORIG, now)
      ensures OwnersLeft(old(ttOwners), old(orig[..]), ttOwners, orig[..])
      ensures HoldersLeft(old(fragOwners), old(orig[..]), fragOwners, orig[..])
      ensures NeighsLeft(old(neigh[..]), neigh[..], orig[..], MAX_NEIGH, now)
    {
      ghost var was, wasN := orig[..], neigh[..];
      OwnersSame(ttOwners, was);
      HoldersSame(fragOwners, was);
      for i := 0 to MAX_ORIG
        invariant Valid() && SameAddrs(wasN, neigh[..])
        invariant Purging(was, orig[..], i, now) && OwnersLeft(old(ttOwners), was, ttOwners, orig[..])
        invariant HoldersLeft(old(fragOwners), was, fragOwners, orig[..])
      {
        hide CountedBut, UniqueAddrs, Owned, Routed, Age, Rerouted, Lost, Purging, OwnersLeft, HoldersLeft;
        ghost var mid, owners, holders := orig[..], ttOwners, fragOwners;
        if orig[i].used {
          if Age(now, orig[i].lastSeen) > ORIG_TIMEOUT_MS {
            OrigFree(i);
          } else {
            PurgeCands(i, now);
          }
        }
        assert orig[..] == mid[i := orig[i]];
        PurgeNext(was, mid, i, orig[i], now);
        PurgeOwners(old(ttOwners), was, owners, mid, i, orig[i], now);
        PurgeHolders(old(fragOwners), was, holders, mid, i, orig[i], now);
      }
      PurgeNeighs(now, wasN);
    }

    // Its last loop.
    method PurgeNeighs(now: u32, ghost wasN: seq<Neigh>)
      requires Valid() && SameAddrs(wasN, neigh[..])
      modifies neigh
      ensures Valid() && NeighsLeft(wasN, neigh[..], orig[..], MAX_NEIGH, now)
    {
      NeighsStart(wasN, neigh[..], orig[..], now);
      for n := 0 to MAX_NEIGH
        invariant Valid() && NeighsLeft(wasN, neigh[..], orig[..], n, now)
      {
        ghost var before := neigh[..];
        NeighsNext(wasN, before, orig[..], n, now);
        hide CountedBut, UniqueAddrs, Owned, Routed, NeighsLeft, Age, Wrap32;
        if neigh[n].used && neigh[n].refs == 0 {
          NobodyNames(neigh[..], orig[..], n);
          CountedForget(neigh[..], orig[..], n);
          NeighRewritten(neigh[..], orig[..], n, NO_NEIGH);
          NeighAddrs(neigh[..], orig[..], n, NO_NEIGH);
          neigh[n] := NO_NEIGH;
          assert neigh[..] == before[n := NO_NEIGH];
        } else if neigh[n].used && Age(now, neigh[n].lastSeen) > 0x4000_0000 {
          Touch(n, neigh[n].(lastSeen := Wrap32(now - 0x4000_0000)));
        } else {
          assert neigh[..] == before[n := before[n]];
        }
      }
    }

    // Neighbour n's clock or sequence number changes, nothing else of it.
    method Touch(n: nat, e: Neigh)
      requires Valid() && n < MAX_NEIGH && neigh[n] == e.(lastSeen := neigh[n].lastSeen, elpSeq := neigh[n].elpSeq)
      modifies neigh
      ensures Valid() && neigh[..] == old(neigh[..])[n := e]
    {
      ghost var was := neigh[..];
      TouchCounted(was, orig[..], n, e);
      hide CountedBut, UniqueAddrs, Owned, Routed;
      neigh[n] := e;
      assert neigh[..] == was[n := e];
    }

    // bat_neigh_get would find or admit the address.
    method NeighRoom(hard: Mac, now: u32) returns (b: bool)
      requires Valid()
      ensures b <==> !(NoNeigh(neigh[..], hard) && AllLive(neigh[..], now))
    {
      var r := NeighFind(hard);
      if r != -1 {
        assert neigh[..][r].addr == hard;
        return true;
      }
      hide Age;
      for i := 0 to MAX_NEIGH
        invariant forall j :: 0 <= j < i ==> neigh[j].used && Age(now, neigh[j].lastSeen) <= EVICT_AGE_MS
      {
        if !neigh[i].used || Age(now, neigh[i].lastSeen) > EVICT_AGE_MS {
          assert !AllLive(neigh[..], now) by {
            var e := neigh[..][i];
          }
          return true;
        }
      }
      return false;
    }

    // An ELP of originator own, heard from link address hard.
    method ElpRx(self: Mac, hard: Mac, own: Mac, seqno: u32, now: u32) returns (taken: bool)
      requires Valid()
      modifies this, neigh, orig
      ensures Valid()
      // Taken exactly if both tables have room and the number is new.
      ensures taken <==>
        && own != self && Room(old(neigh[..]), hard, now)
        && Admits(old(neigh[..]), old(orig[..]), own, true, now) && !Seen(old(neigh[..]), hard, seqno)
      ensures taken ==> HeardFrom(neigh[..], orig[..], hard, own, seqno, now)
      ensures own == self || !Admits(old(neigh[..]), old(orig[..]), own, Room(old(neigh[..]), hard, now), now) ==>
        SameAddrs(old(neigh[..]), neigh[..]) && orig[..] == old(orig[..])
      ensures
        && own != self && !Room(old(neigh[..]), hard, now) && Admits(old(neigh[..]), old(orig[..]), own, false, now) ==>
        SameAddrs(old(neigh[..]), neigh[..]) && OnlyPlaced(old(orig[..]), orig[..], own, now)
      // What an ELP with room leaves, a second copy too.
      ensures
        && own != self && Room(old(neigh[..]), hard, now) && Admits(old(neigh[..]), old(orig[..]), own, true, now)
        ==> Met(old(neigh[..]), old(orig[..]), neigh[..], orig[..], hard, own, seqno, now, taken)
      // Whoever stays, with the routes it had, keeps its rows and slots.
      ensures OwnersLeft(old(ttOwners), old(orig[..]), ttOwners, orig[..])
      ensures HoldersLeft(old(fragOwners), old(orig[..]), fragOwners, orig[..])
    {
      ghost var was, wasN, owners, holders := orig[..], neigh[..], ttOwners, fragOwners;
      OwnersSame(owners, was);
      HoldersSame(holders, was);
      if own == self {
        return false;
      }
      var room := NeighRoom(hard, now);
      assert room == Room(wasN, hard, now);
      hide *;
      var i := OrigGet(own, room, now);
      ghost var midN := neigh[..];
      StillThere(wasN, midN, hard, seqno, now);
      if i == -1 {
        return false;
      }
      ghost var before, owners1 := orig[..], ttOwners;
      PlacedIs(was, before, i, own, now);
      var n := NeighGet(hard, own, now);
      OwnersAfter(owners, holders, was, owners1, fragOwners, before, i, ttOwners, orig[..]);
      assert room <==> n != -1 by {
        RoomIs(midN, hard, now);
      }
      if n == -1 {
        OnlyPlacedAt(was, orig[..], i, own, now);
        return false;
      }
      ghost var mid, newN := orig[..], neigh[..];
      PlacesAt(before, mid, i);
      SeenIs(midN, before, newN[n], hard, own, seqno, now, n);
      taken := ElpTaken(i, n, hard, own, seqno, now);
      StillLeft(owners, holders, was, ttOwners, fragOwners, mid, i, orig[..]);
      NeighMetBy(wasN, midN, newN, neigh[..], n, hard, own, seqno, now, taken);
      OrigMetBy(wasN, midN[n], was, before, mid, orig[..], n, i, hard, own, now, taken);
      MetAt(wasN, was, neigh[..], orig[..], hard, own, seqno, now, taken, n, i);
    }

    // The rest of bat_elp_rx: the candidate, and the duplicate test.
    method ElpTaken(i: nat, n: nat, hard: Mac, own: Mac, seqno: u32, now: u32) returns (taken: bool)
      requires Valid() && i < MAX_ORIG && orig[i].used && orig[i].addr == own
      requires n < MAX_NEIGH && neigh[n].used && neigh[n].addr == hard
      modifies neigh, orig
      ensures Valid() && orig[..] == old(orig[..])[i := orig[i]] && SamePlace(old(orig[i]), orig[i])
      ensures orig[i].routerD == old(orig[i]).routerD && orig[i].routerJ == old(orig[i]).routerJ
      ensures taken <==> !Dup(seqno, old(neigh[n]).elpSeq)
      ensures taken ==> HeardFrom(neigh[..], orig[..], hard, own, seqno, now)
      ensures NeighTold(old(neigh[..]), neigh[..], n, seqno, now, taken)
      ensures CandMet(old(orig[i]), orig[i], n, now, taken)
    {
      ghost var was, wasN := orig[..], neigh[..];
      assert was[i].CandsOk();
      hide CountedBut, UniqueAddrs, Owned, Routed, CandPlace;
      var c := CandGet(i, n, now);
      assert neigh[..][n].addr == wasN[n].addr && neigh[..][n].used && neigh[..][n].elpSeq == wasN[n].elpSeq;
      ghost var e := orig[i].cand[c];
      assert orig[i] == was[i].(cand := was[i].cand[c := e]);
      var d := SDiff(seqno, neigh[n].elpSeq);
      if -SEQ_WINDOW < d <= 0 {
        assert CandMetAt(was[i], orig[i], c, n, now, false);
        return false;
      }
      Touch(n, neigh[n].(lastSeen := now, elpSeq := seqno));
      Heard(i, c, now);
      assert orig[..] == was[i := orig[i]];
      assert HeardAt(neigh[..], orig[..], hard, own, seqno, now, n, i, c);
      assert was[i].cand[c := e][c := orig[i].cand[c]] == was[i].cand[c := orig[i].cand[c]];
      assert CandMetAt(was[i], orig[i], c, n, now, true);
      return true;
    }

    // Originator i, known, comes to own client rows, or a fragment slot.
    method OwnRows(i: nat)
      requires Valid() && i < MAX_ORIG && orig[i].used
      modifies `ttOwners
      ensures Valid() && ttOwners == old(ttOwners) + {i}
    {
      ttOwners := ttOwners + {i};
    }

    method OwnSlot(i: nat)
      requires Valid() && i < MAX_ORIG && orig[i].used
      modifies `fragOwners
      ensures Valid() && fragOwners == old(fragOwners) + {i}
    {
      fragOwners := fragOwners + {i};
    }

    method Heard(i: nat, c: nat, now: u32)
      requires Valid() && i < MAX_ORIG && c < CANDS && orig[i].used && |orig[i].cand| == CANDS && orig[i].cand[c].used
      modifies orig
      ensures Valid() && orig[..] == old(orig[..])[i := orig[i]] && |orig[i].cand| == CANDS
      ensures orig[i] == old(orig[i]).(cand := old(orig[i]).cand[c := old(orig[i]).cand[c].(lastSeen := now)])
    {
      ghost var was := orig[..];
      var o := orig[i];
      assert was[i].CandsOk() && was[i].RoutersOk();
      var o' := o.(cand := o.cand[c := o.cand[c].(lastSeen := now)]);
      KeepCand(o, c, o.cand[c].(lastSeen := now));
      StillCounted(neigh[..], was, i, o');
      AddrsKept(neigh[..], was, neigh[..], i, o');
      OwnersKept(was, ttOwners, i, o');
      OwnersKept(was, fragOwners, i, o');
      RoutersKept(was, i, o');
      hide CountedBut, UniqueAddrs, Owned, Routed;
      orig[i] := o';
      assert orig[..] == was[i := o'];
    }

    // One OGM record from neighbour n; each table's part as the sequence rule judged it.
    method OgmRecord(addr: Mac, n: nat, inDefault: bool, inIface: bool, seqno: u32, ttl: nat, tput: u32, ifTput: u32,
                     now: u32)
      returns (i: int)
      requires Valid() && n < MAX_NEIGH && neigh[n].used
      modifies this, neigh, orig
      ensures Valid() && -1 <= i < MAX_ORIG && SameAddrs(old(neigh[..]), neigh[..])
      ensures i != -1 <==> Admits(old(neigh[..]), old(orig[..]), addr, false, now)
      ensures i == -1 ==> orig[..] == old(orig[..]) && NoAddr(orig[..], addr)
      // Whoever stays keeps its rows and slots.
      ensures OwnersLeft(old(ttOwners), old(orig[..]), ttOwners, orig[..])
      ensures HoldersLeft(old(fragOwners), old(orig[..]), fragOwners, orig[..])
      ensures i != -1 ==> orig[i].used && orig[i].addr == addr && orig[..] == old(orig[..])[i := orig[i]]
      // Its candidate holds what each table took, and each table's route is chosen anew.
      ensures i != -1 ==>
        && (Known(old(orig[i]), addr) || MayPlace(old(neigh[..]), old(orig[..]), i, false, now))
        && Recorded(Base(old(orig[i]), addr, now), orig[i], n,
                    if inDefault then Some(CandTbl(tput, seqno, ttl, true)) else None,
                    if inIface then Some(CandTbl(ifTput, seqno, ttl, true)) else None, now)
    {
      ghost var was, wasN, owners, holders := orig[..], neigh[..], ttOwners, fragOwners;
      OwnersSame(owners, was);
      HoldersSame(holders, was);
      hide CountedBut, UniqueAddrs, Owned, Routed, Displaceable, NoAddr, CandPlace, Switches;
      hide OwnersLeft, HoldersLeft, Replaced, Admits;
      i := OrigGet(addr, false, now);
      if i == -1 {
        return;
      }
      ghost var found := orig[..];
      assert wasN[n].used && neigh[..][n].used;
      hide Lost, SamePlace, Recorded;
      StoreBoth(i, n, inDefault, inIface, seqno, ttl, tput, ifTput, now);
      assert orig[..] == was[i := orig[i]];
      NoneLost(ttOwners, found, i, orig[..]);
      OwnersAfter(owners, holders, was, ttOwners, fragOwners, found, i, ttOwners, orig[..]);
    }

    // The candidate of originator i through neighbour n, and the store of each table the record
    // is new to.
    method StoreBoth(i: nat, n: nat, inDefault: bool, inIface: bool, seqno: u32, ttl: nat, tput: u32, ifTput: u32,
                     now: u32)
      requires Valid() && i < MAX_ORIG && orig[i].used && n < MAX_NEIGH && neigh[n].used
      modifies neigh, orig
      ensures Valid() && orig[..] == old(orig[..])[i := orig[i]] && SameAddrs(old(neigh[..]), neigh[..])
      ensures SamePlace(old(orig[i]), orig[i]) && !Lost(old(orig[i]), orig[i])
      ensures
        Recorded(old(orig[i]), orig[i], n, if inDefault then Some(CandTbl(tput, seqno, ttl, true)) else None,
                 if inIface then Some(CandTbl(ifTput, seqno, ttl, true)) else None, now)
    {
      ghost var was := orig[..];
      assert was[i].CandsOk();
      hide CountedBut, UniqueAddrs, Owned, Routed, Switches, CandPlace;
      var c := CandGet(i, n, now);
      ghost var o1 := orig[i];
      assert CandMetAt(was[i], o1, c, n, now, false);
      if inDefault {
        Store(i, c, Default, seqno, ttl, tput, now);
      }
      ghost var o2 := orig[i];
      if inIface {
        Store(i, c, Iface, seqno, ttl, ifTput, now);
      }
      assert orig[..] == was[i := orig[i]];
      assert ToldIf(o1, o2, c, Default, if inDefault then Some(CandTbl(tput, seqno, ttl, true)) else None, now);
      assert ToldIf(o2, orig[i], c, Iface, if inIface then Some(CandTbl(ifTput, seqno, ttl, true)) else None, now);
    }
  }

  datatype Option<T> = None | Some(value: T)

  ghost predicate ToldIf(o: Orig, o': Orig, c: nat, t: Tbl, e: Option<CandTbl>, now: u32) {
    if e.Some? then SamePlace(o, o') && Told(o, o', c, t, e.value, now) else o' == o
  }

  // From o to o': the candidate through neighbour n, found or made, is told by each table what it
  // took, first the default one.
  ghost predicate Recorded(o: Orig, o': Orig, n: nat, d: Option<CandTbl>, j: Option<CandTbl>, now: u32) {
    exists c: nat, o1: Orig, o2: Orig ::
      CandMetAt(o, o1, c, n, now, false) && ToldIf(o1, o2, c, Default, d, now) && ToldIf(o2, o', c, Iface, j, now)
  }

  ghost predicate HeardAt(neigh: seq<Neigh>, orig: seq<Orig>, hard: Mac, own: Mac, seqno: u32, now: u32,
                          n: nat, i: nat, c: nat) {
    && n < |neigh| && neigh[n].used && neigh[n].addr == hard && neigh[n].elpSeq == seqno && neigh[n].lastSeen == now
    && i < |orig| && orig[i].used && orig[i].addr == own
    && c < |orig[i].cand| && orig[i].cand[c].used && orig[i].cand[c].neigh == n && orig[i].cand[c].lastSeen == now
  }

  // A number already taken, or at most 63 behind it.
  predicate Dup(seqno: u32, last: u32) {
    -SEQ_WINDOW < SDiff(seqno, last) <= 0
  }

  // The number is old to the neighbour at that address; a neighbour not met yet is at 0.
  ghost predicate Seen(neigh: seq<Neigh>, hard: Mac, seqno: u32) {
    if NoNeigh(neigh, hard) then Dup(seqno, 0)
    else exists n :: 0 <= n < |neigh| && neigh[n].used && neigh[n].addr == hard && Dup(seqno, neigh[n].elpSeq)
  }

  // The neighbour table holds the address or can take it.
  ghost predicate Room(neigh: seq<Neigh>, hard: Mac, now: u32) {
    !(NoNeigh(neigh, hard) && AllLive(neigh, now))
  }

  // Entry n told of a new number, nothing else of the entries but their counts.
  ghost predicate NeighTold(was: seq<Neigh>, neigh: seq<Neigh>, n: nat, seqno: u32, now: u32, taken: bool) {
    && n < |was| == |neigh|
    && forall m :: 0 <= m < |was| ==>
         neigh[m] == if m == n && taken then was[m].(refs := neigh[m].refs, lastSeen := now, elpSeq := seqno)
                     else was[m].(refs := neigh[m].refs)
  }

  // Originator o' is o with candidate c through neighbour n, heard now if it is new or the
  // number was.
  ghost predicate CandMetAt(o: Orig, o': Orig, c: nat, n: nat, now: u32, taken: bool) {
    && c < |o.cand| == |o'.cand| && o' == o.(cand := o.cand[c := o'.cand[c]])
    && if o.cand[c].used && o.cand[c].neigh == n
       then o'.cand[c] == if taken then o.cand[c].(lastSeen := now) else o.cand[c]
       else CandPlace(o, c, now) && o'.cand[c] == NewCand(n, now)
  }

  ghost predicate CandMet(o: Orig, o': Orig, n: nat, now: u32, taken: bool) {
    exists c: nat :: CandMetAt(o, o', c, n, now, taken)
  }

  predicate Known(o: Orig, addr: Mac) {
    o.used && o.addr == addr
  }

  predicate At(e: Neigh, hard: Mac) {
    e.used && e.addr == hard
  }

  // The originator an address has, or starts with.
  function Base(o: Orig, addr: Mac, now: u32): Orig {
    if Known(o, addr) then o else NewOrig(addr, now)
  }

  // At most one originator came, that of the address.
  ghost predicate OnlyPlaced(was: seq<Orig>, orig: seq<Orig>, addr: Mac, now: u32) {
    exists i: nat :: i < |was| && orig == was[i := Base(was[i], addr, now)]
  }

  // If entry e, of neighbour n, gives way to another address, o' is o without it.
  ghost predicate Rid(e: Neigh, hard: Mac, n: nat, o: Orig, o': Orig) {
    if e.used && e.addr != hard && o.used then Rerouted(o, WithoutVia(o.cand, n), o') else o' == o
  }

  // Neighbour n is the one at the address, known before or put in a place that was free or silent
  // longest, and was told the number if it was new.
  ghost predicate NeighMet(was: seq<Neigh>, neigh: seq<Neigh>, n: nat, hard: Mac, own: Mac, seqno: u32, now: u32,
                           taken: bool) {
    && n < |was|
    && (At(was[n], hard) || (NoNeigh(was, hard) && NeighPlace(was, n, now)))
    && NeighTold(was[n := if At(was[n], hard) then was[n] else Neigh(true, hard, own, 0, now, 0)], neigh, n, seqno, now,
                 taken)
  }

  // Originator i is the one of address own, known before or put in a place that was free or might
  // be displaced; it has a candidate through n, and the others are as before but for the
  // candidates through a neighbour that gave way.
  ghost predicate OrigMet(neigh: seq<Neigh>, was: seq<Orig>, orig: seq<Orig>, n: nat, i: nat, hard: Mac, own: Mac,
                          now: u32, taken: bool) {
    && n < |neigh| && i < |was| == |orig|
    && (Known(was[i], own) || (NoAddr(was, own) && MayPlace(neigh, was, i, true, now)))
    && (forall x :: 0 <= x < |was| && x != i ==> Rid(neigh[n], hard, n, was[x], orig[x]))
    && exists o: Orig :: Rid(neigh[n], hard, n, Base(was[i], own, now), o) && CandMet(o, orig[i], n, now, taken)
  }

  ghost predicate Met(wasN: seq<Neigh>, was: seq<Orig>, neigh: seq<Neigh>, orig: seq<Orig>, hard: Mac, own: Mac,
                      seqno: u32, now: u32, taken: bool) {
    exists n: nat, i: nat :: NeighMet(wasN, neigh, n, hard, own, seqno, now, taken)
                             && OrigMet(wasN, was, orig, n, i, hard, own, now, taken)
  }

  // Counts say nothing of the addresses.
  lemma StillThere(was: seq<Neigh>, neigh: seq<Neigh>, hard: Mac, seqno: u32, now: u32)
    requires SameAddrs(was, neigh)
    ensures NoNeigh(neigh, hard) == NoNeigh(was, hard) && AllLive(neigh, now) == AllLive(was, now)
    ensures Seen(neigh, hard, seqno) == Seen(was, hard, seqno) && Room(neigh, hard, now) == Room(was, hard, now)
    ensures |was| == |neigh| && forall n: nat :: n < |was| ==> neigh[n] == was[n].(refs := neigh[n].refs)
    ensures forall n: nat :: n < |was| && NeighPlace(neigh, n, now) ==> NeighPlace(was, n, now)
  {
    hide Age, Dup;
  }

  lemma SeenAt(neigh: seq<Neigh>, orig: seq<Orig>, hard: Mac, seqno: u32, n: nat)
    requires UniqueAddrs(neigh, orig) && n < |neigh| && At(neigh[n], hard)
    ensures Seen(neigh, hard, seqno) == Dup(seqno, neigh[n].elpSeq)
  {
    hide Dup;
  }

  lemma SeenIs(neigh: seq<Neigh>, orig: seq<Orig>, e: Neigh, hard: Mac, own: Mac, seqno: u32, now: u32, n: nat)
    requires UniqueAddrs(neigh, orig) && n < |neigh|
    requires
      if At(neigh[n], hard) then e == neigh[n] else NoNeigh(neigh, hard) && e == Neigh(true, hard, own, 0, now, 0)
    ensures Seen(neigh, hard, seqno) == Dup(seqno, e.elpSeq)
  {
    hide Dup, UniqueAddrs;
    if At(neigh[n], hard) {
      SeenAt(neigh, orig, hard, seqno, n);
    }
  }

  lemma PlacedIs(was: seq<Orig>, orig: seq<Orig>, i: nat, own: Mac, now: u32)
    requires i < |was|
    requires if was[i].used && was[i].addr == own then orig == was else orig == was[i := NewOrig(own, now)]
    ensures orig == was[i := Base(was[i], own, now)] && orig[i].used && orig[i].addr == own
  {
  }

  lemma OnlyPlacedAt(was: seq<Orig>, orig: seq<Orig>, i: nat, own: Mac, now: u32)
    requires i < |was| && orig == was[i := Base(was[i], own, now)]
    ensures OnlyPlaced(was, orig, own, now)
  {
  }

  lemma PlacesAt(was: seq<Orig>, orig: seq<Orig>, i: nat)
    requires SamePlaces(was, orig) && i < |was|
    ensures SamePlace(was[i], orig[i]) && orig[i].used == was[i].used && orig[i].addr == was[i].addr
  {
  }

  lemma RoomIs(neigh: seq<Neigh>, hard: Mac, now: u32)
    ensures Room(neigh, hard, now) <==> !(NoNeigh(neigh, hard) && AllLive(neigh, now))
  {
  }

  lemma MetAt(wasN: seq<Neigh>, was: seq<Orig>, neigh: seq<Neigh>, orig: seq<Orig>, hard: Mac, own: Mac, seqno: u32,
              now: u32, taken: bool, n: nat, i: nat)
    requires NeighMet(wasN, neigh, n, hard, own, seqno, now, taken)
    requires OrigMet(wasN, was, orig, n, i, hard, own, now, taken)
    ensures Met(wasN, was, neigh, orig, hard, own, seqno, now, taken)
  {
  }

  // The neighbour's part.
  lemma NeighMetBy(was: seq<Neigh>, mid: seq<Neigh>, now1: seq<Neigh>, neigh: seq<Neigh>, n: nat, hard: Mac, own: Mac,
                   seqno: u32, now: u32, taken: bool)
    requires SameAddrs(was, mid) && n < |mid|
    requires
      if At(mid[n], hard) then now1 == mid
      else NoNeigh(mid, hard) && NeighPlace(mid, n, now) && now1 == mid[n := Neigh(true, hard, own, 0, now, 0)]
    requires NeighTold(now1, neigh, n, seqno, now, taken)
    ensures NeighMet(was, neigh, n, hard, own, seqno, now, taken)
  {
    StillThere(was, mid, hard, seqno, now);
    hide NeighPlace, NoNeigh;
  }

  // The originator's.
  lemma OrigMetBy(neigh: seq<Neigh>, e: Neigh, was: seq<Orig>, before: seq<Orig>, mid: seq<Orig>, orig: seq<Orig>,
                  n: nat, i: nat, hard: Mac, own: Mac, now: u32, taken: bool)
    requires n < |neigh| && i < |was| == MAX_ORIG && e == neigh[n].(refs := e.refs)
    requires before == was[i := Base(was[i], own, now)]
    requires (was[i].used && was[i].addr == own) || (NoAddr(was, own) && MayPlace(neigh, was, i, true, now))
    requires if e.used && e.addr != hard then Evicting(before, mid, n, MAX_ORIG) else mid == before
    requires |orig| == |mid| && orig == mid[i := orig[i]] && CandMet(mid[i], orig[i], n, now, taken)
    ensures OrigMet(neigh, was, orig, n, i, hard, own, now, taken)
  {
    hide NoAddr, MayPlace, Rerouted, CandMet, Base;
    assert Rid(neigh[n], hard, n, before[i], mid[i]);
    forall x | 0 <= x < |was| && x != i
      ensures Rid(neigh[n], hard, n, was[x], orig[x])
    {
      assert before[x] == was[x] && orig[x] == mid[x];
    }
  }

  // The sender is a neighbour, and a candidate for its own originator.
  ghost predicate HeardFrom(neigh: seq<Neigh>, orig: seq<Orig>, hard: Mac, own: Mac, seqno: u32, now: u32) {
    exists n: nat, i: nat, c: nat :: HeardAt(neigh, orig, hard, own, seqno, now, n, i, c)
  }

  // Those candidates but the ones through neighbour n.
  function WithoutVia(cand: seq<Cand>, n: nat): (r: seq<Cand>)
    ensures |r| == |cand|
  {
    seq(|cand|, c requires 0 <= c < |cand| =>
      if cand[c].used && cand[c].neigh == n then cand[c].(used := false) else cand[c])
  }

  // o' is o with those candidates; if any went, with the best routers left.
  ghost predicate Rerouted(o: Orig, cand: seq<Cand>, o': Orig) {
    if cand == o.cand then o' == o
    else
      && |cand| == CANDS && o' == o.(cand := cand, routerD := o'.routerD, routerJ := o'.routerJ)
      && Best(cand, Default, CANDS, o'.routerD) && Best(cand, Iface, CANDS, o'.routerJ)
  }

  // A route was lost: the originator's client rows go.
  predicate Lost(o: Orig, o': Orig) {
    (o.routerD >= 0 > o'.routerD) || (o.routerJ >= 0 > o'.routerJ)
  }

  lemma ForgetDone(o: Orig, n: nat, cand: seq<Cand>, hit: bool)
    requires |o.cand| == CANDS && cand == WithoutVia(o.cand, n)
    requires hit <==> exists b :: 0 <= b < CANDS && o.cand[b].used && o.cand[b].neigh == n
    ensures hit <==> cand != o.cand
    ensures forall b :: 0 <= b < CANDS ==> !(cand[b].used && cand[b].neigh == n)
  {
    if hit {
      var b :| 0 <= b < CANDS && o.cand[b].used && o.cand[b].neigh == n;
      assert cand[b] != o.cand[b];
    }
  }

  ghost predicate NeighPlace(neigh: seq<Neigh>, r: nat, now: u32)
    requires r < |neigh|
  {
    !neigh[r].used
    || (Age(now, neigh[r].lastSeen) > EVICT_AGE_MS
        && forall j :: 0 <= j < |neigh| ==> neigh[j].used && Age(now, neigh[j].lastSeen) <= Age(now, neigh[r].lastSeen))
  }

  lemma OwnersSame(owners: set<nat>, was: seq<Orig>)
    ensures OwnersLeft(owners, was, owners, was)
  {
  }

  lemma EvictedPlaces(was: seq<Orig>, orig: seq<Orig>, n: nat)
    requires Evicting(was, orig, n, MAX_ORIG)
    ensures SamePlaces(was, orig)
  {
    forall j | 0 <= j < |was|
      ensures SamePlace(was[j], orig[j])
    {
      assert was[j].used && j < MAX_ORIG ==> Rerouted(was[j], WithoutVia(was[j].cand, n), orig[j]);
    }
  }

  // The first i originators were rid of their candidates through n, the others are as before.
  ghost predicate Evicting(was: seq<Orig>, orig: seq<Orig>, n: nat, i: nat) {
    && |was| == |orig|
    && forall j :: 0 <= j < |was| ==>
         if j < i && was[j].used then Rerouted(was[j], WithoutVia(was[j].cand, n), orig[j]) else orig[j] == was[j]
  }

  lemma EvictNext(was: seq<Orig>, mid: seq<Orig>, n: nat, i: nat, o: Orig)
    requires Evicting(was, mid, n, i) && i < |mid|
    requires if mid[i].used then Rerouted(mid[i], WithoutVia(mid[i].cand, n), o) else o == mid[i]
    ensures Evicting(was, mid[i := o], n, i + 1)
  {
    hide Rerouted;
  }

  lemma EvictedAll(neigh: seq<Neigh>, was: seq<Orig>, orig: seq<Orig>, n: nat)
    requires Evicting(was, orig, n, MAX_ORIG) && CountedBut(neigh, orig, n)
    ensures Holders(orig, n) == {}
  {
    forall j | 0 <= j < MAX_ORIG
      ensures !orig[j].Via(n)
    {
      if was[j].used {
        assert Rerouted(was[j], WithoutVia(was[j].cand, n), orig[j]);
        assert orig[j].cand == WithoutVia(was[j].cand, n);
      } else {
        assert orig[j].CandsOk();
      }
    }
  }

  // Not there any more, or another one in its place.
  predicate Gone(o: Orig, o': Orig) {
    o.used && !(o'.used && o'.addr == o.addr)
  }

  // Client rows are left with those who owned them, did not lose a route and are still there.
  ghost predicate OwnersLeft(owners: set<nat>, was: seq<Orig>, owners': set<nat>, orig: seq<Orig>) {
    && |was| == |orig|
    && forall x: nat :: x in owners' <==>
         x in owners && !(x < |was| && (Lost(was[x], orig[x]) || Gone(was[x], orig[x])))
  }

  // Originator r is another one now; it owned nothing if it was none.
  ghost predicate Replaced(owners: set<nat>, was: seq<Orig>, orig: seq<Orig>, r: nat) {
    r < |was| == |orig| && orig == was[r := orig[r]] && (r in owners ==> Gone(was[r], orig[r]))
  }

  lemma ReplacedBy(owners: set<nat>, was: seq<Orig>, r: nat, addr: Mac, now: u32)
    requires Owned(was, owners) && r < |was| && NoAddr(was, addr)
    ensures Replaced(owners, was, was[r := NewOrig(addr, now)], r)
  {
  }

  // An originator found or put in place, and what happened to the others after it.
  lemma OwnersThen(owners: set<nat>, was: seq<Orig>, mids: set<nat>, mid: seq<Orig>, r: nat, owners': set<nat>,
                   orig: seq<Orig>)
    requires OwnersLeft(mids, mid, owners', orig) && SamePlaces(mid, orig)
    requires (mid == was && mids == owners) || (Replaced(owners, was, mid, r) && mids == owners - {r})
    ensures OwnersLeft(owners, was, owners', orig)
  {
    hide Lost;
    forall x: nat | x < |was|
      ensures x in owners' <==> x in owners && !(Lost(was[x], orig[x]) || Gone(was[x], orig[x]))
    {
      assert SamePlace(mid[x], orig[x]);
    }
  }

  lemma HoldersThen(holders: set<nat>, was: seq<Orig>, holders': set<nat>, mid: seq<Orig>, r: nat, orig: seq<Orig>)
    requires SamePlaces(mid, orig)
    requires (mid == was && holders' == holders) || (Replaced(holders, was, mid, r) && holders' == holders - {r})
    ensures HoldersLeft(holders, was, holders', orig)
  {
    forall x: nat | x < |was|
      ensures x in holders' <==> x in holders && !Gone(was[x], orig[x])
    {
      assert SamePlace(mid[x], orig[x]);
    }
  }

  // Nobody moved and nobody lost a route.
  lemma OwnersKeepAll(owners: set<nat>, was: seq<Orig>, orig: seq<Orig>)
    requires SamePlaces(was, orig) && forall x :: 0 <= x < |was| ==> !Lost(was[x], orig[x])
    ensures OwnersLeft(owners, was, owners, orig)
  {
    forall x: nat | x < |was|
      ensures !Gone(was[x], orig[x])
    {
      assert SamePlace(was[x], orig[x]);
    }
  }

  lemma OwnersAfter(owners: set<nat>, holders: set<nat>, was: seq<Orig>, owners1: set<nat>, holders': set<nat>,
                    mid: seq<Orig>, r: nat, owners': set<nat>, orig: seq<Orig>)
    requires OwnersLeft(owners1, mid, owners', orig) && SamePlaces(mid, orig)
    requires
      || (mid == was && owners1 == owners && holders' == holders)
      || (Replaced(owners + holders, was, mid, r) && owners1 == owners - {r} && holders' == holders - {r})
    ensures OwnersLeft(owners, was, owners', orig) && HoldersLeft(holders, was, holders', orig)
  {
    OwnersThen(owners, was, owners1, mid, r, owners', orig);
    HoldersThen(holders, was, holders', mid, r, orig);
    hide OwnersLeft, HoldersLeft, SamePlaces;
  }

  lemma NoneLost(owners: set<nat>, was: seq<Orig>, i: nat, orig: seq<Orig>)
    requires i < |was| && |was| == |orig| && orig == was[i := orig[i]]
    requires SamePlace(was[i], orig[i]) && !Lost(was[i], orig[i])
    ensures SamePlaces(was, orig) && OwnersLeft(owners, was, owners, orig)
  {
    OwnersKeepAll(owners, was, orig);
  }

  lemma StillLeft(owners: set<nat>, holders: set<nat>, was: seq<Orig>, owners': set<nat>, holders': set<nat>,
                  mid: seq<Orig>, i: nat, orig: seq<Orig>)
    requires OwnersLeft(owners, was, owners', mid) && HoldersLeft(holders, was, holders', mid)
    requires i < |mid| && |mid| == |orig| && orig == mid[i := orig[i]] && SamePlace(mid[i], orig[i])
    requires orig[i].routerD == mid[i].routerD && orig[i].routerJ == mid[i].routerJ
    ensures OwnersLeft(owners, was, owners', orig) && HoldersLeft(holders, was, holders', orig)
  {
    OwnersSameRouters(owners, was, owners', mid, orig);
  }

  // Later changes that leave places and routers alone change nothing.
  lemma OwnersSameRouters(owners: set<nat>, was: seq<Orig>, owners': set<nat>, mid: seq<Orig>, orig: seq<Orig>)
    requires OwnersLeft(owners, was, owners', mid) && SamePlaces(mid, orig)
    requires forall x :: 0 <= x < |mid| ==> orig[x].routerD == mid[x].routerD && orig[x].routerJ == mid[x].routerJ
    ensures OwnersLeft(owners, was, owners', orig)
  {
    forall x: nat | x < |was|
      ensures Lost(was[x], orig[x]) == Lost(was[x], mid[x]) && Gone(was[x], orig[x]) == Gone(was[x], mid[x])
    {
      assert SamePlace(mid[x], orig[x]);
    }
  }

  lemma OwnersNext(owners: set<nat>, was: seq<Orig>, mids: set<nat>, mid: seq<Orig>, i: nat, o: Orig, n: nat)
    requires OwnersLeft(owners, was, mids, mid) && i < |mid| && Evicting(was, mid, n, i)
    requires if mid[i].used then Rerouted(mid[i], WithoutVia(mid[i].cand, n), o) else o == mid[i]
    ensures OwnersLeft(owners, was, if mid[i].used && Lost(mid[i], o) then mids - {i} else mids, mid[i := o])
  {
    assert mid[i] == was[i];
  }

  predicate StaleCand(c: Cand, now: u32) {
    c.used && Age(now, c.lastSeen) > CAND_TIMEOUT_MS
  }

  // Those candidates but the stale ones.
  function FreshCands(cand: seq<Cand>, now: u32): (r: seq<Cand>)
    ensures |r| == |cand|
  {
    seq(|cand|, c requires 0 <= c < |cand| => if StaleCand(cand[c], now) then NO_CAND else cand[c])
  }

  lemma PurgeDone(o: Orig, now: u32, cand: seq<Cand>, del: bool)
    requires |o.cand| == CANDS && cand == FreshCands(o.cand, now)
    requires del <==> exists b :: 0 <= b < CANDS && StaleCand(o.cand[b], now)
    ensures del <==> cand != o.cand
  {
    if del {
      var b :| 0 <= b < CANDS && StaleCand(o.cand[b], now);
      assert cand[b] != o.cand[b];
    }
  }

  // What the purge makes of one originator.
  ghost predicate Purged(o: Orig, o': Orig, now: u32) {
    if !o.used then o' == o
    else if Age(now, o.lastSeen) > ORIG_TIMEOUT_MS then o' == NoOrig()
    else Rerouted(o, FreshCands(o.cand, now), o')
  }

  ghost predicate Purging(was: seq<Orig>, orig: seq<Orig>, i: nat, now: u32) {
    && |was| == |orig|
    && forall j :: 0 <= j < |was| ==> if j < i then Purged(was[j], orig[j], now) else orig[j] == was[j]
  }

  lemma PurgeNext(was: seq<Orig>, mid: seq<Orig>, i: nat, o: Orig, now: u32)
    requires Purging(was, mid, i, now) && i < |mid| && Purged(mid[i], o, now)
    ensures Purging(was, mid[i := o], i + 1, now)
  {
    hide Purged;
  }

  lemma PurgeOwners(owners: set<nat>, was: seq<Orig>, mids: set<nat>, mid: seq<Orig>, i: nat, o: Orig, now: u32)
    requires OwnersLeft(owners, was, mids, mid) && i < |mid| && Purging(was, mid, i, now) && Purged(mid[i], o, now)
    ensures
      var gone := mid[i].used && (!o.used || Lost(mid[i], o));
      OwnersLeft(owners, was, if gone then mids - {i} else mids, mid[i := o])
  {
    assert mid[i] == was[i];
  }

  // Fragment slots are left with those who are still there.
  ghost predicate HoldersLeft(holders: set<nat>, was: seq<Orig>, holders': set<nat>, orig: seq<Orig>) {
    && |was| == |orig|
    && forall x: nat :: x in holders' <==> x in holders && !(x < |was| && Gone(was[x], orig[x]))
  }

  lemma HoldersSame(holders: set<nat>, was: seq<Orig>)
    ensures HoldersLeft(holders, was, holders, was)
  {
  }

  lemma PurgeHolders(holders: set<nat>, was: seq<Orig>, mids: set<nat>, mid: seq<Orig>, i: nat, o: Orig, now: u32)
    requires HoldersLeft(holders, was, mids, mid) && i < |mid| && Purging(was, mid, i, now) && Purged(mid[i], o, now)
    ensures HoldersLeft(holders, was, if mid[i].used && !o.used then mids - {i} else mids, mid[i := o])
  {
    assert mid[i] == was[i];
  }

  // What becomes of the first n neighbours: those nobody names go, the others' counts are
  // exact, and very old clocks are pulled up so that they do not come round.
  ghost predicate NeighsLeft(was: seq<Neigh>, neigh: seq<Neigh>, orig: seq<Orig>, n: nat, now: u32) {
    && |was| == |neigh| == MAX_NEIGH
    && forall m :: 0 <= m < MAX_NEIGH ==>
         if m < n then NeighLeft(was[m], neigh[m], |Holders(orig, m)|, now)
          else neigh[m] == was[m].(refs := neigh[m].refs)
  }

  ghost predicate NeighLeft(e: Neigh, e': Neigh, refs: nat, now: u32) {
    if !e.used then e' == e.(refs := e'.refs)
    else if refs == 0 then e' == NO_NEIGH
    else e' == e.(refs := refs, lastSeen :=
           if Age(now, e.lastSeen) > 0x4000_0000 then Wrap32(now - 0x4000_0000) else e.lastSeen)
  }

  lemma NeighsStart(was: seq<Neigh>, neigh: seq<Neigh>, orig: seq<Orig>, now: u32)
    requires SameAddrs(was, neigh) && |neigh| == MAX_NEIGH
    ensures NeighsLeft(was, neigh, orig, 0, now)
  {
  }

  lemma NeighsNext(was: seq<Neigh>, neigh: seq<Neigh>, orig: seq<Orig>, n: nat, now: u32)
    requires NeighsLeft(was, neigh, orig, n, now) && n < MAX_NEIGH && Counted(neigh, orig)
    ensures
      var e := neigh[n];
      var e' := if !e.used then e else if e.refs == 0 then NO_NEIGH
                else if Age(now, e.lastSeen) > 0x4000_0000 then e.(lastSeen := Wrap32(now - 0x4000_0000)) else e;
      NeighsLeft(was, neigh[n := e'], orig, n + 1, now)
  {
    hide Age, Wrap32, Holders;
  }

  lemma TouchCounted(neigh: seq<Neigh>, orig: seq<Orig>, n: nat, e: Neigh)
    requires Counted(neigh, orig) && UniqueAddrs(neigh, orig) && n < MAX_NEIGH
    requires neigh[n] == e.(lastSeen := neigh[n].lastSeen, elpSeq := neigh[n].elpSeq)
    ensures Counted(neigh[n := e], orig) && UniqueAddrs(neigh[n := e], orig)
  {
    forall i | 0 <= i < MAX_ORIG
      ensures Named(neigh[n := e], orig[i])
    {
      assert Named(neigh, orig[i]);
    }
  }

  // o' is o with candidate c told e for table t, and that table's route perhaps its own now.
  ghost predicate Told(o: Orig, o': Orig, c: nat, t: Tbl, e: CandTbl, now: u32) {
    && c < |o.cand| == CANDS
    && o'.cand == o.cand[c := o.cand[c].With(t, e).(lastSeen := now)] && o'.lastSeen == now
    && o'.Router(t) == (if Switches(o, c, t, e.seqno, e.tput) then c else o.Router(t))
    && (forall x: Tbl :: x != t ==> o'.Router(x) == o.Router(x))
  }

  // Candidate c, told seqno and tput, takes table t's route: no valid router holds it, or it
  // is five numbers ahead, or faster.
  predicate Switches(o: Orig, c: nat, t: Tbl, seqno: u32, tput: u32)
    requires |o.cand| == CANDS
  {
    var r := o.Router(t);
    r != c && !(0 <= r < CANDS && o.cand[r].used && o.cand[r].At(t).valid
                && SDiff(seqno, o.cand[r].At(t).seqno) < ROUTE_SWITCH_GAP && o.cand[r].At(t).tput >= tput)
  }

  ghost predicate AllLive(neigh: seq<Neigh>, now: u32) {
    forall j :: 0 <= j < |neigh| ==> neigh[j].used && Age(now, neigh[j].lastSeen) <= EVICT_AGE_MS
  }

  lemma SameCands(o: Orig, o1: Orig, o2: Orig)
    requires SameVia(o, o1, -1) && o1.CandsOk() && o2.cand == o1.cand && o2.used == o1.used
    ensures SameVia(o, o2, -1) && o2.CandsOk()
  {
    assert forall m: nat :: o2.Via(m) <==> o1.Via(m);
  }

  lemma CountedForget(neigh: seq<Neigh>, orig: seq<Orig>, n: int)
    requires Counted(neigh, orig)
    ensures CountedBut(neigh, orig, n)
  {
  }

  ghost predicate NoNeigh(neigh: seq<Neigh>, hard: Mac) {
    forall j :: 0 <= j < |neigh| ==> !(neigh[j].used && neigh[j].addr == hard)
  }

  ghost predicate SamePlaces(a: seq<Orig>, b: seq<Orig>) {
    |a| == |b| && forall i :: 0 <= i < |a| ==> SamePlace(a[i], b[i])
  }

  lemma NeighAddrs(neigh: seq<Neigh>, orig: seq<Orig>, n: nat, e: Neigh)
    requires UniqueAddrs(neigh, orig) && n < |neigh|
    requires e.used ==> NoNeigh(neigh, e.addr)
    ensures UniqueAddrs(neigh[n := e], orig)
  {
  }

  function NewCand(n: nat, now: u32): Cand {
    Cand(true, n, now, NO_TBL, NO_TBL)
  }

  // Of the first k candidates, all used: the least recently heard that is no router.
  ghost predicate SpareCand(o: Orig, k: nat, oldest: int, now: u32)
    requires k <= |o.cand| && -1 <= oldest < k
  {
    && (forall b :: 0 <= b < k ==> o.cand[b].used)
    && (oldest != -1 ==> oldest != o.routerD && oldest != o.routerJ)
    && (forall b :: 0 <= b < k && b != o.routerD && b != o.routerJ ==>
          oldest != -1 && Age(now, o.cand[b].lastSeen) <= Age(now, o.cand[oldest].lastSeen))
  }

  ghost predicate CandFits(o: Orig, c: nat, n: nat) {
    o.CandsOk() && c < CANDS && !o.cand[c].used && !o.Via(n)
  }

  lemma NoneVia(o: Orig, n: nat, slot: int)
    requires o.CandsOk() && forall b :: 0 <= b < CANDS ==> !(o.cand[b].used && o.cand[b].neigh == n)
    requires 0 <= slot < CANDS ==> !o.cand[slot].used
    ensures !o.Via(n) && (0 <= slot < CANDS ==> CandFits(o, slot, n))
  {
  }

  // Two routers cannot be all four candidates.
  lemma RoutersAreTwo(o: Orig, now: u32)
    requires |o.cand| == CANDS
    ensures !SpareCand(o, CANDS, -1, now)
  {
    var b := if o.routerD != 0 && o.routerJ != 0 then 0 else if o.routerD != 1 && o.routerJ != 1 then 1 else 2;
    assert o.cand[b].used ==> b != o.routerD && b != o.routerJ;
  }

  lemma SpareNext(o: Orig, k: nat, oldest: int, now: u32)
    requires k < |o.cand| && -1 <= oldest < k && SpareCand(o, k, oldest, now) && o.cand[k].used
    ensures
      var spare := o.routerD != k && o.routerJ != k;
      var older := oldest < 0 || Age(now, o.cand[k].lastSeen) > Age(now, o.cand[oldest].lastSeen);
      SpareCand(o, k + 1, if spare && older then k else oldest, now)
  {
    hide Age;
    var spare := o.routerD != k && o.routerJ != k;
    var older := oldest < 0 || Age(now, o.cand[k].lastSeen) > Age(now, o.cand[oldest].lastSeen);
    var oldest' := if spare && older then k else oldest;
    assert oldest' != -1 ==> oldest' != o.routerD && oldest' != o.routerJ;
    forall b | 0 <= b < k + 1 && b != o.routerD && b != o.routerJ
      ensures oldest' != -1 && Age(now, o.cand[b].lastSeen) <= Age(now, o.cand[oldest'].lastSeen)
    {
      if b < k {
        assert oldest != -1 && Age(now, o.cand[b].lastSeen) <= Age(now, o.cand[oldest].lastSeen);
      } else {
        assert spare;
      }
    }
  }

  lemma PlaceExists(o: Orig, oldest: int, n: nat, now: u32)
    requires o.CandsOk() && -1 <= oldest < CANDS && SpareCand(o, CANDS, oldest, now) && !o.Via(n)
    ensures 0 <= oldest && CandPlace(o, oldest, now) && oldest != o.routerD && oldest != o.routerJ
    ensures CandFits(o.(cand := o.cand[oldest := NO_CAND]), oldest, n)
  {
    if oldest == -1 {
      assert false by {
        RoutersAreTwo(o, now);
      }
    }
    var o' := o.(cand := o.cand[oldest := NO_CAND]);
    DropCand(o, oldest, NO_CAND);
  }

  lemma FreedKeepsRouters(orig: seq<Orig>, i: nat, c: nat)
    requires Routed(orig) && i < |orig| && c < |orig[i].cand| && c != orig[i].routerD && c != orig[i].routerJ
    ensures Routed(orig[i := orig[i].(cand := orig[i].cand[c := NO_CAND])])
  {
    assert orig[i].RoutersOk();
    RoutersKept(orig, i, orig[i].(cand := orig[i].cand[c := NO_CAND]));
  }

  lemma ReplacedOnce(orig: seq<Orig>, i: nat, o: Orig, c: nat, e: Cand)
    requires i < |orig| && c < |o.cand|
    ensures orig[i := o.(cand := o.cand[c := NO_CAND])][i := o.(cand := o.cand[c := e])]
            == orig[i := o.(cand := o.cand[c := e])]
    ensures o.cand[c := NO_CAND][c := e] == o.cand[c := e]
  {
  }

  ghost predicate CandPlace(o: Orig, c: nat, now: u32) {
    && |o.cand| == CANDS && c < CANDS
    && (o.cand[c].used ==> SpareCand(o, CANDS, c, now))
  }

  lemma StaleChosen(neigh: seq<Neigh>, orig: seq<Orig>, oldest: int, forNeigh: bool, now: u32)
    requires |orig| == MAX_ORIG && -1 <= oldest < MAX_ORIG && Stale(orig, MAX_ORIG, oldest, now)
    ensures oldest != -1 ==> Displaceable(neigh, orig, oldest, forNeigh, now)
    ensures oldest == -1 && !forNeigh ==> forall i :: 0 <= i < MAX_ORIG ==> !Displaceable(neigh, orig, i, forNeigh, now)
  {
    hide Age, Worst;
  }

  lemma WorstChosen(neigh: seq<Neigh>, orig: seq<Orig>, oldest: int, now: u32)
    requires |orig| == MAX_ORIG && -1 <= oldest < MAX_ORIG && Worst(neigh, orig, MAX_ORIG, oldest, now)
    requires Stale(orig, MAX_ORIG, -1, now)
    ensures oldest != -1 ==> Displaceable(neigh, orig, oldest, true, now)
    ensures oldest == -1 && (forall i :: 0 <= i < MAX_ORIG ==> orig[i].used) ==>
      forall i :: 0 <= i < MAX_ORIG ==> !Displaceable(neigh, orig, i, true, now)
  {
    hide Age, NeighOrig, TputOf;
  }

  lemma FreedNoAddr(orig: seq<Orig>, i: nat, addr: Mac)
    requires NoAddr(orig, addr) && i < |orig|
    ensures NoAddr(orig[i := NoOrig()], addr) && !orig[i := NoOrig()][i].used
  {
  }

  lemma PlacedOver(orig: seq<Orig>, i: nat, addr: Mac, now: u32)
    requires i < |orig|
    ensures orig[i := NoOrig()][i := NewOrig(addr, now)] == orig[i := NewOrig(addr, now)]
    ensures NewOrig(addr, now).used && NewOrig(addr, now).addr == addr
  {
  }

  // Of the first n originators: the one without a default route that was unheard longest,
  // and for over 30 s.
  ghost predicate Stale(orig: seq<Orig>, n: nat, oldest: int, now: u32)
    requires n <= |orig| && -1 <= oldest < n
  {
    && (oldest != -1 ==> orig[oldest].routerD < 0 && Age(now, orig[oldest].lastSeen) > EVICT_AGE_MS)
    && (forall j :: 0 <= j < n && orig[j].routerD < 0 && Age(now, orig[j].lastSeen) > EVICT_AGE_MS ==>
          oldest != -1 && Age(now, orig[j].lastSeen) <= Age(now, orig[oldest].lastSeen))
  }

  ghost predicate NoAddr(orig: seq<Orig>, addr: Mac) {
    forall j :: 0 <= j < |orig| ==> !(orig[j].used && orig[j].addr == addr)
  }

  ghost predicate NeighOrig(neigh: seq<Neigh>, addr: Mac) {
    exists j :: 0 <= j < |neigh| && neigh[j].used && neigh[j].orig == addr
  }

  // w: of the first n originators that are no neighbour's own, the one with the lowest throughput,
  // unheard longest of several.
  ghost predicate Worst(neigh: seq<Neigh>, orig: seq<Orig>, n: nat, w: int, now: u32)
    requires n <= |orig| && -1 <= w < n
  {
    if w == -1 then forall j :: 0 <= j < n && orig[j].used ==> NeighOrig(neigh, orig[j].addr)
    else
      && orig[w].used && !NeighOrig(neigh, orig[w].addr)
      && (forall j :: 0 <= j < n && orig[j].used && !NeighOrig(neigh, orig[j].addr) ==>
            TputOf(orig[w]) < TputOf(orig[j])
            || (TputOf(orig[w]) == TputOf(orig[j]) && Age(now, orig[j].lastSeen) <= Age(now, orig[w].lastSeen)))
  }

  // What may make room for another originator: one without a default route and not heard for
  // 30 s; or, for a direct neighbour's, the worst-routed one that is no neighbour's own.
  ghost predicate Displaceable(neigh: seq<Neigh>, orig: seq<Orig>, i: nat, forNeigh: bool, now: u32)
    requires i < |orig|
  {
    || (orig[i].routerD < 0 && Age(now, orig[i].lastSeen) > EVICT_AGE_MS)
    || (forNeigh && Worst(neigh, orig, |orig|, i, now))
  }

  // There is room for the address: it is known, a slot is free, or one may be displaced.
  ghost predicate Admits(neigh: seq<Neigh>, orig: seq<Orig>, addr: Mac, forNeigh: bool, now: u32) {
    !NoAddr(orig, addr) || exists i :: 0 <= i < |orig| && MayPlace(neigh, orig, i, forNeigh, now)
  }

  ghost predicate MayPlace(neigh: seq<Neigh>, orig: seq<Orig>, i: nat, forNeigh: bool, now: u32)
    requires i < |orig|
  {
    !orig[i].used || Displaceable(neigh, orig, i, forNeigh, now)
  }

  lemma AdmitsAt(neigh: seq<Neigh>, orig: seq<Orig>, addr: Mac, forNeigh: bool, now: u32, i: nat)
    requires i < |orig| && (!orig[i].used || Displaceable(neigh, orig, i, forNeigh, now))
    ensures Admits(neigh, orig, addr, forNeigh, now)
  {
    assert MayPlace(neigh, orig, i, forNeigh, now);
  }

  lemma AdmitsFound(neigh: seq<Neigh>, orig: seq<Orig>, addr: Mac, forNeigh: bool, now: u32, i: nat)
    requires i < |orig| && orig[i].used && orig[i].addr == addr
    ensures Admits(neigh, orig, addr, forNeigh, now)
  {
  }

  function NewOrig(addr: Mac, now: u32): Orig {
    Orig(true, addr, now, -1, -1, NoCands())
  }

  // bat_route_tput
  function TputOf(o: Orig): u32 {
    if o.routerD < 0 || o.routerD >= |o.cand| || !o.cand[o.routerD].used then 0 else o.cand[o.routerD].d.tput
  }

  lemma NoCandsOk(o: Orig)
    requires |o.cand| == CANDS && forall c :: 0 <= c < CANDS ==> !o.cand[c].used
    ensures o.CandsOk() && forall m: nat :: !o.Via(m)
  {
  }

  lemma EmptySlot(neigh: seq<Neigh>, orig: seq<Orig>, i: nat, o: Orig)
    requires Counted(neigh, orig) && UniqueAddrs(neigh, orig) && i < MAX_ORIG
    requires forall c :: 0 <= c < CANDS ==> !orig[i].cand[c].used
    requires |o.cand| == CANDS && (forall c :: 0 <= c < CANDS ==> !o.cand[c].used)
    requires o.used ==> NoAddr(orig, o.addr)
    ensures Counted(neigh, orig[i := o]) && UniqueAddrs(neigh, orig[i := o])
  {
    assert orig[i].CandsOk();
    NoCandsOk(orig[i]);
    NoCandsOk(o);
    StillCounted(neigh, orig, i, o);
  }

  lemma OwnerGone(orig: seq<Orig>, owners: set<nat>, i: nat)
    requires Owned(orig, owners)
    ensures Owned(orig, owners - {i})
  {
  }

  lemma FreeFacts(neigh: seq<Neigh>, orig: seq<Orig>, i: nat, c: nat)
    requires Counted(neigh, orig) && i < MAX_ORIG && c < CANDS && orig[i].cand[c].used
    ensures
      var n := orig[i].cand[c].neigh;
      var o' := orig[i].(cand := orig[i].cand[c := NO_CAND]);
      n < MAX_NEIGH && neigh[n].used && neigh[n].refs > 0
      && Counted(neigh[n := neigh[n].(refs := neigh[n].refs - 1)], orig[i := o'])
      && !o'.Via(n) && SameVia(orig[i], o', n)
  {
    DropCand(orig[i], c, NO_CAND);
    assert Named(neigh, orig[i]);
    CandCounted(neigh, orig, i, orig[i].(cand := orig[i].cand[c := NO_CAND]), orig[i].cand[c].neigh);
  }
}
