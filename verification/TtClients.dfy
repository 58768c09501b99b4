// Clients, announced tables and their checks (main/bat/bat_tt.c, bat_crc32c_tt).
module TtClients {
  import Crc32c

  type Mac = m: seq<bv8> | |m| == 6 witness [0, 0, 0, 0, 0, 0]

  datatype Client = Client(mac: Mac, vid: bv16)

  // What an originator announces: the flags of each of its clients.
  type Table = map<Client, bv8>

  const ZERO_MAC: Mac := [0, 0, 0, 0, 0, 0]

  function SyncFlags(f: bv8): bv8 {
    f & 0xF0
  }

  predicate IsTemp(f: bv8) {
    f & 0x01 == 1
  }

  predicate IsDel(f: bv8) {
    f & 0x01 == 1
  }

  predicate IsRoam(f: bv8) {
    f & 0x02 == 2
  }

  lemma SyncIsAnnounced(f: bv8)
    ensures !IsTemp(SyncFlags(f)) && SyncFlags(SyncFlags(f)) == SyncFlags(f)
  {
  }

  function High(v: bv16): bv8 {
    ((v >> 8) & 0xFF) as bv8
  }

  function Low(v: bv16): bv8 {
    (v & 0xFF) as bv8
  }

  // The value of two bytes, high byte first.
  function Word(high: bv8, low: bv8): bv16 {
    (high as bv16 << 8) | low as bv16
  }

  // The high half of f over an empty low one.
  predicate Nibble(h: bv8, f: bv8) {
    h >> 4 == f >> 4 && h & 0x0F == 0
  }

  // bat_crc32c_tt
  function ClientCrc(c: Client, flags: bv8): bv32 {
    Crc32c.Crc(0, [High(c.vid), Low(c.vid), SyncFlags(flags)] + c.mac)
  }

  // Its nine bytes: the VLAN id high byte first, the high half of the flags, the address.
  lemma CheckedBytes(c: Client, flags: bv8, s: seq<bv8>)
    requires |s| == 9 && Word(s[0], s[1]) == c.vid
    requires Nibble(s[2], flags)
    requires forall k :: 0 <= k < 6 ==> s[3 + k] == c.mac[k]
    ensures ClientCrc(c, flags) == Crc32c.Crc(0, s)
  {
    hide Crc32c.Crc, High, Low, Word, Nibble, SyncFlags;
    HighLow(c.vid, s[0], s[1]);
    HighHalf(flags, s[2]);
    assert s == [High(c.vid), Low(c.vid), SyncFlags(flags)] + c.mac;
  }

  lemma HighLow(v: bv16, high: bv8, low: bv8)
    requires Word(high, low) == v
    ensures high == High(v) && low == Low(v)
  {
  }

  lemma HighHalf(f: bv8, h: bv8)
    requires Nibble(h, f)
    ensures h == SyncFlags(f)
  {
  }

  // bat_crc32c_tt over its buffer.
  method BatCrc32cTt(vid: bv16, flags: bv8, mac: Mac) returns (crc: bv32)
    ensures crc == ClientCrc(Client(mac, vid), flags)
  {
    var s := [((vid >> 8) & 0xFF) as bv8, (vid & 0xFF) as bv8, flags & 0xF0,
              mac[0], mac[1], mac[2], mac[3], mac[4], mac[5]];
    crc := Crc32c.BatCrc32c(0, s);
    assert s == [High(vid), Low(vid), SyncFlags(flags)] + mac;
  }

  // ---- known checks ------------------------------------------------------------------

  // 02:00:00:00:00:01 without a VLAN.
  lemma BytesSoft(s: seq<bv8>)
    requires s == [0x00, 0x00, 0x00, 0x02, 0x00, 0x00, 0x00, 0x00, 0x01]
    ensures Crc32c.Crc(0, s) == 0x29E7_23C0
  {
    var v: seq<bv8> := [0x00, 0x00, 0x01];
    var w := [0x02, 0x00, 0x00] + v;
    assert s == [0x00, 0x00, 0x00] + w;
    assert v == [0x00, 0x00, 0x01] + [];
    assert Crc32c.Crc(0x29E7_23C0, []) == 0x29E7_23C0;
    hide Crc32c.Crc;
    Crc32c.CrcThree(0, 0x00, 0x00, 0x00, 0x0000_0000, 0x0000_0000, 0x0000_0000, w);
    Crc32c.CrcThree(0x0000_0000, 0x02, 0x00, 0x00, 0xE13B_70F7, 0x2745_30EE, 0x4F6F_520D, v);
    Crc32c.CrcThree(0x4F6F_520D, 0x00, 0x00, 0x01, 0xBF67_2381, 0x7022_DF58, 0x29E7_23C0, []);
  }

  lemma BytesVlan1(s: seq<bv8>)
    requires s == [0x80, 0x01, 0x00, 0x02, 0x0A, 0x00, 0x00, 0xBA, 0x70]
    ensures Crc32c.Crc(0, s) == 0xF1D9_43E7
  {
    var v: seq<bv8> := [0x00, 0xBA, 0x70];
    var w := [0x02, 0x0A, 0x00] + v;
    assert s == [0x80, 0x01, 0x00] + w;
    assert v == [0x00, 0xBA, 0x70] + [];
    assert Crc32c.Crc(0xF1D9_43E7, []) == 0xF1D9_43E7;
    hide Crc32c.Crc;
    Crc32c.CrcThree(0, 0x80, 0x01, 0x00, 0x82F6_3B78, 0x09A8_79FA, 0x9885_EF34, w);
    Crc32c.CrcThree(0x9885_EF34, 0x02, 0x0A, 0x00, 0x16DA_2BB6, 0xFF40_6732, 0xD127_7921, v);
    Crc32c.CrcThree(0xD127_7921, 0x00, 0xBA, 0x70, 0xD207_2AA4, 0xBCF4_7F62, 0xF1D9_43E7, []);
  }

  lemma BytesIsolated(s: seq<bv8>)
    requires s == [0x00, 0x00, 0x20, 0x02, 0x0E, 0x00, 0x00, 0x00, 0x20]
    ensures Crc32c.Crc(0, s) == 0x936A_C7D9
  {
    var v: seq<bv8> := [0x00, 0x00, 0x20];
    var w := [0x02, 0x0E, 0x00] + v;
    assert s == [0x00, 0x00, 0x20] + w;
    assert v == [0x00, 0x00, 0x20] + [];
    assert Crc32c.Crc(0x936A_C7D9, []) == 0x936A_C7D9;
    hide Crc32c.Crc;
    Crc32c.CrcThree(0, 0x00, 0x00, 0x20, 0x0000_0000, 0x0000_0000, 0x20BD_8EDE, w);
    Crc32c.CrcThree(0x20BD_8EDE, 0x02, 0x0E, 0x00, 0x9EB0_93F5, 0x6A79_74DD, 0x6C91_D40C, v);
    Crc32c.CrcThree(0x6C91_D40C, 0x00, 0x00, 0x20, 0x4D2F_5E04, 0xC7D7_B841, 0x936A_C7D9, []);
  }

  // An untagged client, one of VLAN 1, and one whose low flags do not count.
  lemma KnownChecks()
    ensures ClientCrc(Client([0x02, 0x00, 0x00, 0x00, 0x00, 0x01], 0x0000), 0x00) == 0x29E7_23C0
    ensures ClientCrc(Client([0x02, 0x0A, 0x00, 0x00, 0xBA, 0x70], 0x8001), 0x00) == 0xF1D9_43E7
    ensures ClientCrc(Client([0x02, 0x0E, 0x00, 0x00, 0x00, 0x20], 0x0000), 0x2F) == 0x936A_C7D9
  {
    hide Crc32c.Crc, ClientCrc;
    BytesSoft([0x00, 0x00, 0x00, 0x02, 0x00, 0x00, 0x00, 0x00, 0x01]);
    CheckedBytes(Client([0x02, 0x00, 0x00, 0x00, 0x00, 0x01], 0x0000), 0x00,
                 [0x00, 0x00, 0x00, 0x02, 0x00, 0x00, 0x00, 0x00, 0x01]);
    BytesVlan1([0x80, 0x01, 0x00, 0x02, 0x0A, 0x00, 0x00, 0xBA, 0x70]);
    CheckedBytes(Client([0x02, 0x0A, 0x00, 0x00, 0xBA, 0x70], 0x8001), 0x00,
                 [0x80, 0x01, 0x00, 0x02, 0x0A, 0x00, 0x00, 0xBA, 0x70]);
    BytesIsolated([0x00, 0x00, 0x20, 0x02, 0x0E, 0x00, 0x00, 0x00, 0x20]);
    CheckedBytes(Client([0x02, 0x0E, 0x00, 0x00, 0x00, 0x20], 0x0000), 0x2F,
                 [0x00, 0x00, 0x20, 0x02, 0x0E, 0x00, 0x00, 0x00, 0x20]);
  }

  // ---- exclusive or over sets -------------------------------------------------------

  datatype Entry = Entry(client: Client, flags: bv8)

  function Check(e: Entry): bv32 {
    ClientCrc(e.client, e.flags)
  }

  ghost function XorAll(s: set<Entry>): bv32
    decreases |s|
  {
    if s == {} then 0 else
      var e :| e in s;
      Crc32c.Xor(XorAll(s - {e}), Check(e))
  }

  // The order of the clients does not matter.
  lemma {:induction false} XorInsert(s: set<Entry>, e: Entry)
    requires e !in s
    ensures XorAll(s + {e}) == Crc32c.Xor(XorAll(s), Check(e))
    decreases |s|
  {
    hide Crc32c.Xor, Check;
    var t := s + {e};
    var d :| d in t && XorAll(t) == Crc32c.Xor(XorAll(t - {d}), Check(d));
    if d == e {
      assert t - {d} == s;
    } else {
      assert t - {d} == (s - {d}) + {e};
      XorInsert(s - {d}, e);
      assert s == (s - {d}) + {d};
      XorInsert(s - {d}, d);
      Crc32c.XorSwap(XorAll(s - {d}), Check(e), Check(d));
    }
  }

  // The entries of a table in one VLAN.
  ghost function InVlan(t: Table, vid: bv16): set<Entry> {
    set c | c in t && c.vid == vid :: Entry(c, t[c])
  }

  ghost function VlanCrc(t: Table, vid: bv16): bv32 {
    XorAll(InVlan(t, vid))
  }

  ghost function Vids(t: Table): set<bv16> {
    set c | c in t :: c.vid
  }

  // ---- changes ----------------------------------------------------------------------

  datatype Change = Change(client: Client, flags: bv8)

  // One change record taken in (full: a full-table answer).
  function ApplyOne(t: Table, c: Change, full: bool): Table {
    if c.client.mac == ZERO_MAC then t
    else if full && (IsDel(c.flags) || IsRoam(c.flags)) then t
    else if IsDel(c.flags) then t - {c.client}
    else t[c.client := SyncFlags(c.flags)]
  }

  function ApplyAll(t: Table, ch: seq<Change>, full: bool): Table {
    if ch == [] then t
    else ApplyOne(ApplyAll(t, ch[..|ch| - 1], full), ch[|ch| - 1], full)
  }

  // A record that says something of client c: not of the zero address, and in a full answer
  // neither a departure nor a client that roams.
  predicate Concerns(ch: Change, c: Client, full: bool) {
    ch.client == c && c.mac != ZERO_MAC && !(full && (ch.flags & 0x01 == 0x01 || ch.flags & 0x02 == 0x02))
  }

  // The last record that concerns a client decides: it is announced with the high half of those
  // flags, or gone; one that none concerns is as it was.
  lemma {:induction false} LastDecides(t: Table, ch: seq<Change>, full: bool, c: Client, k: int)
    requires -1 <= k < |ch| && (k >= 0 ==> Concerns(ch[k], c, full))
    requires forall j :: k < j < |ch| ==> !Concerns(ch[j], c, full)
    ensures
      var t' := ApplyAll(t, ch, full);
      if k == -1 then (c in t' <==> c in t) && (c in t ==> t'[c] == t[c])
      else (c in t' <==> ch[k].flags & 0x01 == 0) && (c in t' ==> t'[c] == ch[k].flags & 0xF0)
    decreases |ch|
  {
    if ch != [] {
      var n := |ch| - 1;
      OneDecides(ApplyAll(t, ch[..n], full), ch[n], full, c);
      hide Concerns, ApplyOne;
      if k < n {
        LastDecides(t, ch[..n], full, c, k);
      }
    }
  }

  lemma OneDecides(t: Table, ch: Change, full: bool, c: Client)
    ensures
      var t' := ApplyOne(t, ch, full);
      if Concerns(ch, c, full) then
        (c in t' <==> ch.flags & 0x01 == 0) && (c in t' ==> t'[c] == ch.flags & 0xF0)
      else (c in t' <==> c in t) && (c in t ==> t'[c] == t[c])
  {
  }
}
