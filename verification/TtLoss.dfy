// A diff taken on rows that are not the table it starts from (main/bat/bat_tt.c, bat_tt_ogm_rx
// after bat_tt_orig_gone): when the outcome is right all the same, and when the check tells.
module TtLoss {
  import opened Words
  import opened TtClients
  import opened TtSync
  import TtLocal
  import TtRows
  import Crc32c

  // ---- what a diff does not name stays -------------------------------------------------------

  predicate Named(ch: seq<Change>, c: Client) {
    c.mac != ZERO_MAC && exists k :: 0 <= k < |ch| && ch[k].client == c
  }

  predicate SameAt(t: Table, u: Table, c: Client) {
    (c in t <==> c in u) && (c in t ==> t[c] == u[c])
  }

  // The clients a diff does not name are the same in both.
  ghost predicate AgreeOutside(t: Table, u: Table, ch: seq<Change>) {
    forall c: Client :: !Named(ch, c) ==> SameAt(t, u, c)
  }

  lemma NamedLast(ch: seq<Change>, c: Client)
    requires ch != []
    ensures
      var n := |ch| - 1;
      Named(ch, c) <==> Named(ch[..n], c) || (c.mac != ZERO_MAC && ch[n].client == c)
  {
    var n := |ch| - 1;
    if k :| 0 <= k < n && ch[k].client == c {
      assert ch[..n][k] == ch[k];
    }
  }

  // A client named ends up the same whatever was there; another one is left alone.
  lemma {:induction false} DiffAtClient(t: Table, u: Table, ch: seq<Change>, c: Client)
    ensures Named(ch, c) ==> SameAt(ApplyAll(t, ch, false), ApplyAll(u, ch, false), c)
    ensures !Named(ch, c) ==> SameAt(ApplyAll(t, ch, false), t, c)
  {
    if ch != [] {
      NamedLast(ch, c);
      DiffAtClient(t, u, ch[..|ch| - 1], c);
      hide Named, SyncFlags, IsDel;
    }
  }

  // So one diff makes two tables equal exactly when they agree on all it does not name.
  lemma SameDiff(t: Table, u: Table, ch: seq<Change>)
    ensures ApplyAll(t, ch, false) == ApplyAll(u, ch, false) <==> AgreeOutside(t, u, ch)
  {
    var t', u' := ApplyAll(t, ch, false), ApplyAll(u, ch, false);
    forall c: Client
      ensures SameAt(t', u', c) <==> Named(ch, c) || SameAt(t, u, c)
    {
      DiffAtClient(t, u, ch, c);
      DiffAtClient(u, t, ch, c);
    }
    SameTables(t', u');
    hide ApplyAll, Named, SameAt;
  }

  lemma SameTables(t: Table, u: Table)
    ensures t == u <==> forall c: Client :: SameAt(t, u, c)
  {
    if forall c: Client :: SameAt(t, u, c) {
      forall c: Client
        ensures c in t <==> c in u
        ensures c in t ==> t[c] == u[c]
      {
        assert SameAt(t, u, c);
      }
    }
  }

  // A genuine diff of version w, taken with room: right exactly when the rows agreed with the
  // owner's version before it on every client it does not name.
  lemma DiffSyncs(c: Copy, tv: Tvlv, w: nat, asked: bool, c': Copy, tables: seq<Table>)
    requires Real(Ogm(tv, w, asked), tables) && Taken(c, Ogm(tv, w, asked), c')
    requires tv.changes != [] && TakesDiff(c, tv.ttvn)
    ensures w > 0 && (InSync(c', tables, w) <==> AgreeOutside(c.rows, tables[w - 1], tv.changes))
  {
    GenuineDiff(tv, w, tables);
    DescribedChecks(tables[w], tv.vlans);
    SameDiff(c.rows, tables[w - 1], tv.changes);
    hide ApplyAll, AgreeOutside, Checks, TtLocal.Describes, Repeats;
  }

  lemma GenuineDiff(tv: Tvlv, w: nat, tables: seq<Table>)
    requires w < |tables| && TtLocal.Genuine(tv, tables[..w + 1]) && tv.changes != []
    ensures w > 0 && tv.ttvn == w % 256 && ApplyAll(tables[w - 1], tv.changes, false) == tables[w]
    ensures TtLocal.Describes(tv.vlans, tables[w])
  {
    hide ApplyAll, TtLocal.Describes;
  }

  // ---- rows gone with the route ----------------------------------------------------------------

  // What a copy in sync becomes when its originator loses its route (OrigGone).
  function Gone(c: Copy): Copy {
    Copy(map[], c.ttvn, false)
  }

  // The clients a diff leaves alone.
  ghost function Unnamed(t: Table, ch: seq<Change>): set<Client> {
    set c | c in t && !Named(ch, c)
  }

  lemma Missing(t: Table, t': Table, ch: seq<Change>)
    requires ApplyAll(t, ch, false) == t'
    ensures Unnamed(t, ch) <= t'.Keys && ApplyAll(map[], ch, false) == t' - Unnamed(t, ch)
  {
    var lost := Unnamed(t, ch);
    forall x: Client
      ensures x in lost ==> x in t'
      ensures SameAt(ApplyAll(map[], ch, false), t' - lost, x)
    {
      DiffAtClient(map[], t, ch, x);
      DiffAtClient(t, map[], ch, x);
      hide ApplyAll, Named;
    }
    SameTables(ApplyAll(map[], ch, false), t' - lost);
    hide ApplyAll, Unnamed, SameAt;
  }

  // known promises nothing: after the loss the next diff is taken, the copy is known, and it
  // is the owner's table exactly when the diff named every client. What is missing is exactly
  // the clients it did not name.
  lemma KnownIsNotSync(c: Copy, tv: Tvlv, w: nat, asked: bool, c': Copy, tables: seq<Table>)
    requires InSync(c, tables, w) && Real(Ogm(tv, w + 1, asked), tables) && tv.changes != []
    requires Taken(Gone(c), Ogm(tv, w + 1, asked), c')
    ensures TakesDiff(Gone(c), tv.ttvn) && c'.known
    ensures InSync(c', tables, w + 1) <==> Unnamed(tables[w], tv.changes) == {}
    ensures
      Unnamed(tables[w], tv.changes) <= tables[w + 1].Keys
      && c'.rows == tables[w + 1] - Unnamed(tables[w], tv.changes)
  {
    GenuineDiff(tv, w + 1, tables);
    DescribedChecks(tables[w + 1], tv.vlans);
    Missing(tables[w], tables[w + 1], tv.changes);
    hide ApplyAll, Unnamed, Checks, TtLocal.Describes, TtLocal.Genuine, Repeats;
    WithoutSome(tables[w + 1], Unnamed(tables[w], tv.changes));
  }

  lemma WithoutSome(t: Table, lost: set<Client>)
    requires lost <= t.Keys
    ensures t - lost == t <==> lost == {}
  {
    if x :| x in lost {
      assert x !in t - lost && x in t;
    } else {
      assert t - lost == t;
    }
  }

  // ---- when the check tells ------------------------------------------------------------------

  lemma NoneXored(a: set<Entry>)
    ensures XorAll(a + {}) == Crc32c.Xor(XorAll(a), XorAll({}))
  {
    assert a + {} == a;
    Crc32c.XorNone(XorAll(a));
    hide Crc32c.Xor;
  }

  lemma {:induction false} XorUnion(a: set<Entry>, b: set<Entry>)
    requires a !! b
    ensures XorAll(a + b) == Crc32c.Xor(XorAll(a), XorAll(b))
    decreases |b|
  {
    hide Crc32c.Xor, Check, XorAll;
    if b == {} {
      NoneXored(a);
    } else {
      var e :| e in b;
      var b' := b - {e};
      XorUnion(a, b');
      assert a + b == (a + b') + {e} && b == b' + {e};
      XorInsert(a + b', e);
      XorInsert(b', e);
      Crc32c.XorAssoc(XorAll(a), XorAll(b'), Check(e));
    }
  }

  // The entries of one VLAN among the clients lost, and their check.
  ghost function LostIn(t: Table, lost: set<Client>, vid: bv16): set<Entry> {
    set c | c in t && c in lost && c.vid == vid :: Entry(c, t[c])
  }

  ghost function LostCrc(t: Table, lost: set<Client>, vid: bv16): bv32 {
    XorAll(LostIn(t, lost, vid))
  }

  lemma VlanWithout(t: Table, lost: set<Client>, vid: bv16)
    ensures VlanCrc(t, vid) == Crc32c.Xor(VlanCrc(t - lost, vid), LostCrc(t, lost, vid))
  {
    var gone := LostIn(t, lost, vid);
    assert InVlan(t, vid) == InVlan(t - lost, vid) + gone;
    XorUnion(InVlan(t - lost, vid), gone);
    hide XorAll, Crc32c.Xor;
  }

  // Clients missing from an announced table pass its check exactly when theirs cancel out in
  // every VLAN.
  lemma LossPasses(t: Table, lost: set<Client>, vlans: seq<Vlan>)
    requires TtLocal.Describes(vlans, t)
    ensures Checks(t - lost, vlans) <==> forall k :: 0 <= k < |vlans| ==> LostCrc(t, lost, vlans[k].vid) == 0
  {
    forall k | 0 <= k < |vlans|
      ensures VlanCrc(t - lost, vlans[k].vid) == vlans[k].crc <==> LostCrc(t, lost, vlans[k].vid) == 0
    {
      VlanWithout(t, lost, vlans[k].vid);
      Crc32c.XorSame(VlanCrc(t - lost, vlans[k].vid), LostCrc(t, lost, vlans[k].vid));
      hide VlanCrc, LostCrc, Crc32c.Xor;
    }
    assert forall v :: v in Vids(t - lost) ==> v in Vids(t);
    hide VlanCrc, LostCrc, Vids;
  }

  lemma OneLostCrc(t: Table, c: Client, vid: bv16)
    requires c in t
    ensures LostCrc(t, {c}, vid) == if vid == c.vid then ClientCrc(c, t[c]) else 0
  {
    hide ClientCrc, Crc32c.Xor;
    if vid == c.vid {
      assert LostIn(t, {c}, vid) == {} + {Entry(c, t[c])};
      XorInsert({}, Entry(c, t[c]));
      Crc32c.XorComm(XorAll({}), ClientCrc(c, t[c]));
      Crc32c.XorNone(ClientCrc(c, t[c]));
    } else {
      assert LostIn(t, {c}, vid) == {};
    }
  }

  // One client alone: exactly when its own check is 0.
  lemma OneLost(t: Table, c: Client, vlans: seq<Vlan>)
    requires TtLocal.Describes(vlans, t) && c in t
    ensures Checks(t - {c}, vlans) <==> ClientCrc(c, t[c]) == 0
  {
    LossPasses(t, {c}, vlans);
    assert c.vid in Vids(t);
    forall k | 0 <= k < |vlans|
      ensures LostCrc(t, {c}, vlans[k].vid) == if vlans[k].vid == c.vid then ClientCrc(c, t[c]) else 0
    {
      OneLostCrc(t, c, vlans[k].vid);
    }
    hide ClientCrc, Checks, LostCrc;
  }

  // Whether the receiver asks after the loss: exactly when the clients missing do not cancel
  // out, or a VLAN is left without any row.
  lemma LossIsAsked(rows: seq<TtRows.Row>, oi: nat, t: Table, lost: set<Client>, vlans: seq<Vlan>)
    requires TtRows.Sound(rows) && TtLocal.Describes(vlans, t) && TtRows.Announced(rows, oi) == t - lost
    ensures
      !CrcOk(rows, oi, vlans) <==>
      exists k :: 0 <= k < |vlans| && (LostCrc(t, lost, vlans[k].vid) != 0 || !VlanHeld(rows, oi, vlans[k].vid))
  {
    OkIs(rows, oi, vlans);
    LossPasses(t, lost, vlans);
    hide CrcOk, Checks, LostCrc, VlanHeld, TtRows.Sound, TtRows.Announced, TtLocal.Describes;
  }

  // ---- a loss nobody notices -----------------------------------------------------------------

  // A client whose own check is 0.
  const SILENT: Client := Client([0xE2, 0xED, 0xD8, 0x0B, 0x02, 0x00], 0)

  // Zeroes leave an empty register empty.
  lemma ZeroByte(rest: seq<bv8>)
    ensures Crc32c.Crc(0, [0] + rest) == Crc32c.Crc(0, rest)
  {
    hide Crc32c.Crc;
    Crc32c.CrcByte(0, 0, rest, 0);
  }

  lemma FirstBytes(rest: seq<bv8>)
    ensures Crc32c.Crc(0, [0xE2] + ([0xED] + ([0xD8] + rest))) == Crc32c.Crc(0x0000_020B, rest)
  {
    hide Crc32c.Crc;
    Crc32c.CrcByte(0, 0xE2, [0xED] + ([0xD8] + rest), 0x020B_D8ED);
    Crc32c.CrcByte(0x020B_D8ED, 0xED, [0xD8] + rest, 0x0002_0BD8);
    Crc32c.CrcByte(0x0002_0BD8, 0xD8, rest, 0x0000_020B);
  }

  lemma LastBytes(rest: seq<bv8>)
    ensures Crc32c.Crc(0x0000_020B, [0x0B] + ([0x02] + rest)) == Crc32c.Crc(0, rest)
  {
    hide Crc32c.Crc;
    Crc32c.CrcByte(0x0000_020B, 0x0B, [0x02] + rest, 0x0000_0002);
    Crc32c.CrcByte(0x0000_0002, 0x02, rest, 0);
  }

  lemma SilentCrc()
    ensures ClientCrc(SILENT, 0) == 0
  {
    assert Crc32c.Crc(0, []) == 0;
    hide Crc32c.Crc, ClientCrc;
    var last: seq<bv8> := [0x0B] + ([0x02] + ([0x00] + []));
    var p := [0xE2] + ([0xED] + ([0xD8] + last));
    SilentBytes(p);
    ZeroByte([0] + ([0] + p));
    ZeroByte([0] + p);
    ZeroByte(p);
    FirstBytes(last);
    LastBytes([0x00] + []);
    ZeroByte([]);
  }

  lemma SilentBytes(p: seq<bv8>)
    requires p == [0xE2, 0xED, 0xD8, 0x0B, 0x02, 0x00]
    ensures ClientCrc(SILENT, 0) == Crc32c.Crc(0, [0] + ([0] + ([0] + p)))
  {
    assert SILENT.mac == p && SyncFlags(0) == 0;
    var head: seq<bv8> := [High(SILENT.vid), Low(SILENT.vid), SyncFlags(0)];
    assert head[0] == 0 && head[1] == 0 && head[2] == 0;
    assert head + p == [0] + ([0] + ([0] + p));
    hide Crc32c.Crc, SyncFlags;
  }

  // From in sync to wrong without a question: the route goes and takes the rows, the next diff
  // adds d beside the silent client, and the check finds nothing missing. The run is there, and
  // no such run asks.
  lemma SilentLoss(d: Client, asked: bool, c': Copy)
    requires d.vid == 0 && d != SILENT && d.mac != ZERO_MAC
    ensures
      var t1: Table, t2: Table := map[SILENT := 0], map[SILENT := 0, d := 0];
      var tables := [map[], t1, t2];
      var tv := TtLocal.Tvlv(2, [TtLocal.Vlan(VlanCrc(t2, 0), 0)], [Change(d, 0)]);
      var held, wrong := Copy(t1, 1, true), Copy(map[d := 0], 2, true);
      && InSync(held, tables, 1) && Real(Ogm(tv, 2, asked), tables) && !InSync(wrong, tables, 2)
      && Taken(Gone(held), Ogm(tv, 2, false), wrong)
      && (Taken(Gone(held), Ogm(tv, 2, asked), c') ==> !asked && c' == wrong)
  {
    var t1: Table, t2: Table, t: Table := map[SILENT := 0], map[SILENT := 0, d := 0], map[d := 0];
    var tables: seq<Table> := [map[], t1, t2];
    var vlans := [TtLocal.Vlan(VlanCrc(t2, 0), 0)];
    assert SILENT in t2 && vlans[0].vid in Vids(t2) && forall v :: v in Vids(t2) ==> v == vlans[0].vid;
    assert d in t && vlans[0].vid in Vids(t) && forall v :: v in Vids(t) ==> v == vlans[0].vid;
    assert TtLocal.Describes(vlans, t2);
    AddsPlain(map[], d);
    AddsPlain(t1, d);
    assert t1[d := 0] == t2;
    assert t2 - {SILENT} == t;
    SilentCrc();
    OneLost(t2, SILENT, vlans);
    assert TtLocal.Describes(vlans, t);
    assert tables[..3] == tables;
    hide ApplyAll, Checks, TtLocal.Describes, ClientCrc, VlanCrc;
  }

  lemma AddsPlain(t: Table, d: Client)
    requires d.mac != ZERO_MAC
    ensures ApplyAll(t, [Change(d, 0)], false) == t[d := 0]
  {
    assert [Change(d, 0)][..0] == [];
    assert ApplyAll(t, [], false) == t;
  }
}
