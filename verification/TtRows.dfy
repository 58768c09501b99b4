// The table of learned clients (main/bat/bat_tt.c, rows): fixed slots shared by all
// originators, announced rows and rows learned from data.
module TtRows {
  import opened Words
  import opened TtClients

  datatype Row = Row(used: bool, client: Client, orig: nat, flags: bv8, ttvn: u8, ts: u32) {
    predicate Temp() {
      used && IsTemp(flags)
    }

    predicate Ann(oi: nat) {
      used && !IsTemp(flags) && orig == oi
    }
  }

  function Free(): Row {
    Row(false, Client(ZERO_MAC, 0), 0, 0, 0, 0)
  }

  // Of two rows of one client, neither is temporary and they are of different originators.
  ghost predicate Compatible(r: Row, s: Row) {
    r.used && s.used && r.client == s.client ==> !r.Temp() && !s.Temp() && r.orig != s.orig
  }

  ghost predicate Sound(rows: seq<Row>) {
    && (forall i, j :: 0 <= i < j < |rows| ==> Compatible(rows[i], rows[j]))
    && (forall i :: 0 <= i < |rows| && rows[i].used && !rows[i].Temp() ==> SyncFlags(rows[i].flags) == rows[i].flags)
  }

  function CountUsed(rows: seq<Row>): nat {
    if rows == [] then 0 else CountUsed(rows[..|rows| - 1]) + if rows[|rows| - 1].used then 1 else 0
  }

  function CountTemp(rows: seq<Row>): nat {
    if rows == [] then 0 else CountTemp(rows[..|rows| - 1]) + if rows[|rows| - 1].Temp() then 1 else 0
  }

  lemma {:induction false} CountsUpdate(rows: seq<Row>, i: nat, r: Row)
    requires i < |rows|
    ensures CountUsed(rows[i := r]) == CountUsed(rows) - (if rows[i].used then 1 else 0) + (if r.used then 1 else 0)
    ensures CountTemp(rows[i := r]) == CountTemp(rows) - (if rows[i].Temp() then 1 else 0) + (if r.Temp() then 1 else 0)
  {
    var n := |rows| - 1;
    if i == n {
      assert rows[i := r][..n] == rows[..n];
    } else {
      assert rows[i := r][..n] == rows[..n][i := r];
      CountsUpdate(rows[..n], i, r);
    }
  }

  lemma {:induction false} CountsBound(rows: seq<Row>)
    ensures CountTemp(rows) <= CountUsed(rows) <= |rows|
    ensures CountUsed(rows) == |rows| <==> forall i :: 0 <= i < |rows| ==> rows[i].used
    ensures CountTemp(rows) == 0 <==> forall i :: 0 <= i < |rows| ==> !rows[i].Temp()
  {
    if rows != [] {
      var n := |rows| - 1;
      CountsBound(rows[..n]);
      assert forall i :: 0 <= i < n ==> rows[..n][i] == rows[i];
    }
  }

  // ---- what an originator announces --------------------------------------------------

  ghost function Announced(rows: seq<Row>, oi: nat): Table {
    map c | c in ClientsOf(rows, oi) :: FlagsOf(rows, oi, c)
  }

  ghost function ClientsOf(rows: seq<Row>, oi: nat): set<Client> {
    set i | 0 <= i < |rows| && rows[i].Ann(oi) :: rows[i].client
  }

  ghost function FlagsOf(rows: seq<Row>, oi: nat, c: Client): bv8
    requires c in ClientsOf(rows, oi)
  {
    var i :| 0 <= i < |rows| && rows[i].Ann(oi) && rows[i].client == c;
    rows[i].flags
  }

  // t is what the rows of oi say, row by row.
  ghost predicate Says(rows: seq<Row>, oi: nat, t: Table) {
    && (forall i :: 0 <= i < |rows| && rows[i].Ann(oi) ==> rows[i].client in t && t[rows[i].client] == rows[i].flags)
    && (forall c :: c in t ==> exists i :: 0 <= i < |rows| && rows[i].Ann(oi) && rows[i].client == c)
  }

  lemma AnnouncedSays(rows: seq<Row>, oi: nat)
    requires Sound(rows)
    ensures Says(rows, oi, Announced(rows, oi))
  {
    forall i | 0 <= i < |rows| && rows[i].Ann(oi)
      ensures rows[i].client in Announced(rows, oi) && Announced(rows, oi)[rows[i].client] == rows[i].flags
    {
      var c := rows[i].client;
      assert c in ClientsOf(rows, oi);
      var j :| 0 <= j < |rows| && rows[j].Ann(oi) && rows[j].client == c && FlagsOf(rows, oi, c) == rows[j].flags;
      assert i < j ==> Compatible(rows[i], rows[j]);
      assert j < i ==> Compatible(rows[j], rows[i]);
    }
  }

  lemma SaysUnique(rows: seq<Row>, oi: nat, t: Table)
    requires Sound(rows) && Says(rows, oi, t)
    ensures t == Announced(rows, oi)
  {
    AnnouncedSays(rows, oi);
    var u := Announced(rows, oi);
    forall c
      ensures c in t <==> c in u
      ensures c in t ==> t[c] == u[c]
    {
    }
  }

  // r may stand in slot i beside the others.
  ghost predicate Fits(rows: seq<Row>, i: nat, r: Row) {
    && (forall j :: 0 <= j < |rows| && j != i ==> Compatible(r, rows[j]))
    && (r.used && !r.Temp() ==> SyncFlags(r.flags) == r.flags)
  }

  lemma PutSound(rows: seq<Row>, i: nat, r: Row)
    requires Sound(rows) && i < |rows| && Fits(rows, i, r)
    ensures Sound(rows[i := r])
  {
  }

  // One slot rewritten: its old client leaves the table it stood in, its new one enters.
  function Rewritten(t: Table, was: Row, r: Row, oi: nat): Table {
    var left := if was.Ann(oi) then t - {was.client} else t;
    if r.Ann(oi) then left[r.client := r.flags] else left
  }

  lemma PutAnnounced(rows: seq<Row>, i: nat, r: Row, oi: nat)
    requires Sound(rows) && i < |rows| && Fits(rows, i, r)
    ensures Announced(rows[i := r], oi) == Rewritten(Announced(rows, oi), rows[i], r, oi)
  {
    PutSound(rows, i, r);
    AnnouncedSays(rows, oi);
    var t := Announced(rows, oi);
    hide Announced;
    var t' := Rewritten(t, rows[i], r, oi);
    RowsSaid(rows, i, r, oi, t);
    ClientsHeld(rows, i, r, oi, t);
    hide Fits, Sound, Rewritten;
    assert Says(rows[i := r], oi, t');
    SaysUnique(rows[i := r], oi, t');
  }

  lemma RowsSaid(rows: seq<Row>, i: nat, r: Row, oi: nat, t: Table)
    requires Sound(rows) && i < |rows| && Fits(rows, i, r) && Says(rows, oi, t)
    ensures
      var rows', t' := rows[i := r], Rewritten(t, rows[i], r, oi);
      forall j :: 0 <= j < |rows'| && rows'[j].Ann(oi) ==>
        rows'[j].client in t' && t'[rows'[j].client] == rows'[j].flags
  {
    var rows', t' := rows[i := r], Rewritten(t, rows[i], r, oi);
    forall j | 0 <= j < |rows'| && rows'[j].Ann(oi)
      ensures rows'[j].client in t' && t'[rows'[j].client] == rows'[j].flags
    {
      if j != i {
        assert Compatible(rows[if i < j then i else j], rows[if i < j then j else i]);
        assert Compatible(r, rows[j]);
      }
    }
  }

  lemma ClientsHeld(rows: seq<Row>, i: nat, r: Row, oi: nat, t: Table)
    requires i < |rows| && Says(rows, oi, t)
    ensures
      var rows', t' := rows[i := r], Rewritten(t, rows[i], r, oi);
      forall c :: c in t' ==> exists j :: 0 <= j < |rows'| && rows'[j].Ann(oi) && rows'[j].client == c
  {
    var rows', t' := rows[i := r], Rewritten(t, rows[i], r, oi);
    forall c | c in t'
      ensures exists j :: 0 <= j < |rows'| && rows'[j].Ann(oi) && rows'[j].client == c
    {
      if r.Ann(oi) && c == r.client {
        assert rows'[i].Ann(oi);
      } else {
        var j :| 0 <= j < |rows| && rows[j].Ann(oi) && rows[j].client == c;
        assert rows'[j] == rows[j];
      }
    }
  }

  // Every originator announces the same in both.
  ghost predicate SameTables(a: seq<Row>, b: seq<Row>) {
    forall oi :: Announced(a, oi) == Announced(b, oi)
  }

  // Only originator oi's table may differ.
  ghost predicate SameOthers(a: seq<Row>, b: seq<Row>, oi: nat) {
    forall oj :: oj != oi ==> Announced(a, oj) == Announced(b, oj)
  }

  lemma PutSame(rows: seq<Row>, i: nat, r: Row)
    requires Sound(rows) && i < |rows| && Fits(rows, i, r)
    requires !rows[i].used || rows[i].Temp()
    ensures (!r.used || r.Temp()) ==> SameTables(rows, rows[i := r])
    ensures r.used && !r.Temp() ==> SameOthers(rows, rows[i := r], r.orig)
  {
    forall oi
      ensures r.Ann(oi) || Announced(rows, oi) == Announced(rows[i := r], oi)
    {
      PutAnnounced(rows, i, r, oi);
    }
  }

  ghost predicate NoRow(rows: seq<Row>, c: Client, n: nat)
    requires n <= |rows|
  {
    forall j :: 0 <= j < n ==> !(rows[j].used && rows[j].client == c)
  }

  ghost predicate NoTemp(rows: seq<Row>, c: Client, n: nat)
    requires n <= |rows|
  {
    forall j :: 0 <= j < n ==> !(rows[j].Temp() && rows[j].client == c)
  }

  ghost predicate Absent(rows: seq<Row>, c: Client, oi: nat) {
    forall j :: 0 <= j < |rows| ==> !(rows[j].used && rows[j].client == c && rows[j].orig == oi)
  }

  function WithoutTemp(r: Row, client: Client): Row {
    if r.Temp() && r.client == client then Free() else r
  }

  ghost predicate OldestTemp(rows: seq<Row>, i: nat, now: u32) {
    i < |rows| && rows[i].Temp() && forall j :: 0 <= j < |rows| && rows[j].Temp() ==>
         Age(now, rows[j].ts) <= Age(now, rows[i].ts)
  }

  // No row is free, or the temporary ones are at their cap.
  predicate Crowded(rows: seq<Row>) {
    CountTemp(rows) >= TEMP_MAX || CountUsed(rows) >= |rows|
  }

  // The new temporary row has a place, or no row may go for it.
  ghost predicate Learned(was: seq<Row>, rows: seq<Row>, r: Row, now: u32) {
    if HasRoom(was) then exists i: nat :: Filled(was, rows, i, r, now) else rows == was
  }

  lemma NoneLearned(was: seq<Row>, r: Row, now: u32)
    requires !HasRoom(was)
    ensures Learned(was, was, r, now)
  {
  }

  lemma LearnedRow(was: seq<Row>, mid: seq<Row>, i: nat, r: Row, now: u32)
    requires |was| == |mid| && i < |mid| && !mid[i].used
    requires mid == was || (Crowded(was) && exists t: nat :: OldestTemp(was, t, now) && mid == was[t := Free()])
    ensures Learned(was, mid[i := r], r, now)
  {
    hide Age, Crowded;
    assert HasRoom(was) by {
      if mid == was {
        assert !was[i].used;
      } else {
        var t: nat :| OldestTemp(was, t, now);
        assert was[t].Temp();
      }
    }
    assert Filled(was, mid[i := r], i, r, now);
  }

  // Row i holds r now; of the others only the one that had to make room is gone, if any.
  ghost predicate Filled(was: seq<Row>, rows: seq<Row>, i: nat, r: Row, now: u32) {
    && i < |was| == |rows| && rows[i] == r && MayGo(was, i, now)
    && forall j :: 0 <= j < |rows| && j != i ==> rows[j] == was[j] || (rows[j] == Free() && MayGo(was, j, now))
  }

  ghost predicate MayGo(was: seq<Row>, j: nat, now: u32)
    requires j < |was|
  {
    !was[j].used || (Crowded(was) && OldestTemp(was, j, now))
  }

  // A row of its own, and no temporary row of the client; others only made room.
  ghost predicate AddedRow(was: seq<Row>, rows: seq<Row>, i: nat, r: Row, now: u32) {
    && i < |was| == |rows| && rows[i] == r
    && (was[i].used && !was[i].Temp() ==> was[i].client == r.client && was[i].orig == r.orig)
    && forall j :: 0 <= j < |rows| && j != i ==>
         rows[j] == (if was[j].Temp() && was[j].client == r.client then Free() else was[j])
         || (rows[j] == Free() && OldestTemp(was, j, now) && CountUsed(was) >= |was|)
  }

  const ROWS: int := 256
  const TEMP_MAX: int := ROWS / 4
  const TEMP_MS: int := 600000

  class RowTable {
    const rows: array<Row>
    var nrows: nat

    ghost predicate Valid()
      reads this, rows
    {
      && rows.Length == ROWS && Sound(rows[..])
      && nrows == CountUsed(rows[..])
      && CountTemp(rows[..]) <= TEMP_MAX
    }

    constructor ()
      ensures Valid() && fresh(rows) && nrows == 0 && forall oi :: Announced(rows[..], oi) == map[]
      ensures forall i :: 0 <= i < rows.Length ==> !rows[i].used
    {
      rows := new Row[ROWS](i => Free());
      nrows := 0;
      new;
      CountsBound(rows[..]);
      forall oi
        ensures Announced(rows[..], oi) == map[]
      {
        SaysUnique(rows[..], oi, map[]);
      }
      NoneUsed(rows[..]);
    }

    method RowFree(i: nat)
      requires Valid() && i < ROWS && rows[i].used
      modifies rows, `nrows
      ensures Valid() && rows[..] == old(rows[..])[i := Free()] && nrows == old(nrows) - 1
      ensures CountTemp(rows[..]) == CountTemp(old(rows[..])) - if old(rows[i]).Temp() then 1 else 0
    {
      hide Sound, CountUsed, CountTemp;
      CountsUpdate(rows[..], i, Free());
      PutFree(rows[..], i);
      ghost var was := rows[..];
      rows[i] := Free();
      assert rows[..] == was[i := Free()];
      nrows := nrows - 1;
    }

    // Row i becomes r.
    method Put(i: nat, r: Row)
      requires Valid() && i < ROWS && Fits(rows[..], i, r)
      requires rows[i].used == r.used && (r.Temp() && !rows[i].Temp() ==> CountTemp(rows[..]) < TEMP_MAX)
      modifies rows
      ensures Valid() && rows[..] == old(rows[..])[i := r]
    {
      PutSound(rows[..], i, r);
      CountsUpdate(rows[..], i, r);
      hide Sound, CountUsed, CountTemp, Fits;
      ghost var was := rows[..];
      rows[i] := r;
      assert rows[..] == was[i := r];
    }

    method RowFind(client: Client, oi: nat) returns (i: int)
      requires Valid()
      ensures -1 <= i < ROWS
      ensures i != -1 ==> rows[i].used && rows[i].client == client && rows[i].orig == oi
      ensures i == -1 ==> Absent(rows[..], client, oi)
    {
      for k := 0 to ROWS
        invariant forall j :: 0 <= j < k ==> !(rows[j].used && rows[j].client == client && rows[j].orig == oi)
      {
        if rows[k].used && rows[k].orig == oi && rows[k].client == client {
          return k;
        }
      }
      return -1;
    }

    // A free slot takes the client, or there is none.
    method RowNew(client: Client, oi: nat) returns (i: int)
      requires Valid()
      requires NoTemp(rows[..], client, ROWS) && Absent(rows[..], client, oi)
      modifies rows, `nrows
      ensures Valid() && -1 <= i < ROWS
      ensures i == -1 <==> old(nrows) >= ROWS
      ensures i == -1 ==> rows[..] == old(rows[..]) && nrows == old(nrows)
      ensures i != -1 ==>
        && !old(rows[i]).used && rows[..] == old(rows[..])[i := Row(true, client, oi, 0, 0, 0)]
        && nrows == old(nrows) + 1 && CountTemp(rows[..]) == CountTemp(old(rows[..]))
    {
      CountsBound(rows[..]);
      for k := 0 to ROWS
        invariant rows[..] == old(rows[..]) && nrows == old(nrows)
        invariant forall j :: 0 <= j < k ==> rows[j].used
      {
        hide Sound, CountUsed, CountTemp;
        if !rows[k].used {
          i := k;
          ghost var r := Row(true, client, oi, 0, 0, 0);
          assert Fits(rows[..], k, r);
          PutSound(rows[..], k, r);
          CountsUpdate(rows[..], k, r);
          hide Fits;
          ghost var was := rows[..];
          rows[k] := Row(true, client, oi, 0, 0, 0);
          assert rows[..] == was[k := r];
          nrows := nrows + 1;
          return;
        }
      }
      return -1;
    }

    // The oldest temporary row, or -1, and how many there are.
    method TempOldest(now: u32) returns (old': int, n: nat)
      requires Valid()
      ensures -1 <= old' < ROWS && n == CountTemp(rows[..])
      ensures old' == -1 <==> n == 0
      ensures old' != -1 ==> OldestTemp(rows[..], old', now)
    {
      old', n := -1, 0;
      for k := 0 to ROWS
        invariant -1 <= old' < k && n == CountTemp(rows[..k])
        invariant old' == -1 <==> n == 0
        invariant old' != -1 ==> rows[old'].Temp()
        invariant forall j :: 0 <= j < k && rows[j].Temp() ==>
          old' != -1 && Age(now, rows[j].ts) <= Age(now, rows[old'].ts)
      {
        hide Sound, CountUsed, Age;
        assert rows[..k + 1][..k] == rows[..k];
        if rows[k].used && IsTemp(rows[k].flags) {
          n := n + 1;
          if old' == -1 || Age(now, rows[k].ts) > Age(now, rows[old'].ts) {
            old' := k;
          }
        }
      }
      assert rows[..ROWS] == rows[..];
    }

    // Temporary rows of the client go.
    method DropTemps(client: Client)
      requires Valid()
      modifies rows, `nrows
      ensures Valid() && SameTables(old(rows[..]), rows[..]) && NoTemp(rows[..], client, ROWS)
      ensures forall j :: 0 <= j < ROWS ==> rows[j] == WithoutTemp(old(rows[j]), client)
      ensures rows[..] == old(rows[..]) || (nrows < ROWS && HasRoom(old(rows[..])))
    {
      ghost var was := rows[..];
      for k := 0 to ROWS
        invariant Valid() && SameTables(was, rows[..])
        invariant forall j :: 0 <= j < ROWS ==> rows[j] == if j < k then WithoutTemp(was[j], client) else was[j]
        invariant rows[..] == was || (nrows < ROWS && HasRoom(was))
      {
        hide Sound, CountUsed, CountTemp, Announced, Fits;
        if rows[k].used && IsTemp(rows[k].flags) && rows[k].client == client {
          assert was[k].Temp();
          PutFree(rows[..], k);
          PutSame(rows[..], k, Free());
          CountsBound(rows[..]);
          RowFree(k);
        }
      }
    }

    // A full table gives up its oldest temporary row: an announcement outranks it.
    method MakeRoom(ghost client: Client, ghost oi: nat, now: u32)
      requires Valid() && NoTemp(rows[..], client, ROWS) && Absent(rows[..], client, oi)
      modifies rows, `nrows
      ensures Valid() && SameTables(old(rows[..]), rows[..]) && NoTemp(rows[..], client, ROWS)
      ensures Absent(rows[..], client, oi)
      ensures nrows < ROWS <==> HasRoom(old(rows[..]))
      ensures old(nrows) < ROWS || nrows >= ROWS ==> rows[..] == old(rows[..])
      ensures nrows >= ROWS ==> old(nrows) >= ROWS
      ensures old(nrows) >= ROWS > nrows ==> exists t: nat ::
                OldestTemp(old(rows[..]), t, now) && rows[..] == old(rows[..])[t := Free()]
    {
      ghost var was := rows[..];
      CountsBound(rows[..]);
      if nrows >= ROWS {
        var t, n := TempOldest(now);
        hide Sound, CountUsed, CountTemp, Announced, Fits;
        if t != -1 {
          PutFree(rows[..], t);
          PutSame(rows[..], t, Free());
          RowFree(t);
        }
      }
    }

    // The client's row at oi, or -1, once its temporary rows are gone.
    method RowOf(oi: nat, client: Client) returns (i: int)
      requires Valid()
      modifies rows, `nrows
      ensures Valid() && Sound(rows[..]) && |rows[..]| == ROWS && -1 <= i < ROWS
      ensures SameTables(old(rows[..]), rows[..]) && NoTemp(rows[..], client, ROWS)
      ensures forall j :: 0 <= j < ROWS ==> rows[..][j] == WithoutTemp(old(rows[..])[j], client)
      ensures i != -1 ==> rows[i].used && rows[i].client == client && rows[i].orig == oi
      ensures i == -1 ==> Absent(rows[..], client, oi)
      ensures i != -1 <==> client in Announced(old(rows[..]), oi)
      ensures nrows < ROWS ==> rows[..] == old(rows[..]) || HasRoom(old(rows[..]))
      ensures nrows >= ROWS ==> rows[..] == old(rows[..]) && CountUsed(old(rows[..])) >= ROWS
    {
      ghost var was := rows[..];
      DropTemps(client);
      i := RowFind(client, oi);
      FindIsMember(rows[..], client, oi, i);
      hide Sound, NoTemp, Absent, HasRoom, Announced;
      assert Announced(rows[..], oi) == Announced(was, oi);
    }

    // An announced add of client by originator oi; false when there is no room.
    method RowAdd(oi: nat, client: Client, flags: bv8, ttvn: u8, now: u32) returns (ok: bool)
      requires Valid()
      modifies rows, `nrows
      ensures Valid()
      ensures ok <==> client in Announced(old(rows[..]), oi) || HasRoom(old(rows[..]))
      ensures !ok ==> rows[..] == old(rows[..])
      ensures ok ==> Added(old(rows[..]), oi, client, SyncFlags(flags), rows[..]) && NoTemp(rows[..], client, ROWS)
      ensures OnlyOrig(old(rows[..]), rows[..], oi)
      ensures ok ==> exists i: nat ::
                AddedRow(old(rows[..]), rows[..], i, Row(true, client, oi, SyncFlags(flags), ttvn, now), now)
    {
      ghost var was := rows[..];
      hide *;
      var i := RowOf(oi, client);
      ghost var mid, kept := rows[..], rows[..];
      if i == -1 {
        MakeRoom(client, oi, now);
        mid := rows[..];
        i := RowNew(client, oi);
        if i == -1 {
          SameOrig(was, oi);
          return false;
        }
      }
      AddPut(was, mid, rows[..], i, oi, client, flags, ttvn, now);
      ghost var r := Row(true, client, oi, SyncFlags(flags), ttvn, now);
      AddRows(was, kept, mid, i, r, now);
      assert rows[..][i := r] == mid[i := r];
      AddedOrig(was, mid[i := r], i, r, now);
      Put(i, Row(true, client, oi, SyncFlags(flags), ttvn, now));
      return true;
    }

    // Every row of originator oi goes.
    method RowsDelOrig(oi: nat)
      requires Valid()
      modifies rows, `nrows
      ensures Valid() && SameOthers(old(rows[..]), rows[..], oi) && Announced(rows[..], oi) == map[]
      ensures forall j :: 0 <= j < ROWS ==>
        rows[j] == if old(rows[j]).used && old(rows[j]).orig == oi then Free() else old(rows[j])
    {
      ghost var was := rows[..];
      for k := 0 to ROWS
        invariant Valid() && SameOthers(was, rows[..], oi)
        invariant forall j :: 0 <= j < ROWS ==>
          rows[j] == if j < k && was[j].used && was[j].orig == oi then Free() else was[j]
      {
        if rows[k].used && rows[k].orig == oi {
          FreedOthers(rows[..], k, oi);
          hide *;
          RowFree(k);
        }
      }
      SaysUnique(rows[..], oi, map[]);
    }

    // bat_tt_orig_crc: the check of oi's announced rows in one VLAN.
    method OrigCrc(oi: nat, vid: bv16) returns (crc: bv32)
      requires Valid()
      ensures crc == VlanCrc(Announced(rows[..], oi), vid)
    {
      crc := 0;
      ghost var seen: set<Entry> := {};
      for k := 0 to ROWS
        invariant seen == EntriesBelow(rows[..], oi, vid, k) && crc == XorAll(seen)
      {
        EntriesStep(rows[..], oi, vid, k);
        if rows[k].used && rows[k].orig == oi && rows[k].client.vid == vid && !IsTemp(rows[k].flags) {
          var e := Entry(rows[k].client, rows[k].flags);
          XorInsert(seen, e);
          seen := seen + {e};
          var check := BatCrc32cTt(rows[k].client.vid, rows[k].flags, rows[k].client.mac);
          crc := crc ^ check;
        }
      }
      EntriesAll(rows[..], oi, vid);
    }

    // Change records from originator oi; false when an add found no room.
    method Apply(oi: nat, ch: seq<Change>, ttvn: u8, full: bool, now: u32) returns (ok: bool)
      requires Valid()
      modifies rows, `nrows
      ensures Valid() && SameOthers(old(rows[..]), rows[..], oi)
      ensures ok ==> Announced(rows[..], oi) == ApplyAll(Announced(old(rows[..]), oi), ch, full)
      ensures !ok ==> !HasRoom(rows[..])
      ensures OnlyOrig(old(rows[..]), rows[..], oi)
    {
      ghost var was := rows[..];
      SameOrig(was, oi);
      ghost var t := Announced(was, oi);
      var k := 0;
      assert ch[..0] == [];
      while k < |ch|
        invariant 0 <= k <= |ch|
        invariant Valid() && SameOthers(was, rows[..], oi)
        invariant Announced(rows[..], oi) == ApplyAll(t, ch[..k], full)
        invariant OnlyOrig(was, rows[..], oi)
      {
        var c := ch[k];
        ApplyStep(t, ch, k, full);
        ghost var mid := rows[..];
        hide *;
        k := k + 1;
        if c.client.mac == ZERO_MAC {
          continue;
        }
        if IsDel(c.flags) || IsRoam(c.flags) {
          if full {
            continue;
          }
          if IsDel(c.flags) {
            var i := RowFind(c.client, oi);
            DelFound(rows[..], c.client, oi, i);
            if i != -1 {
              FreedOrig(was, mid, i, oi);
              RowFree(i);
            }
            continue;
          }
        }
        var added := RowAdd(oi, c.client, c.flags, ttvn, now);
        OrigTwice(was, mid, rows[..], oi);
        if !added {
          return false;
        }
      }
      assert ch[..k] == ch;
      return true;
    }

    // A client frame from originator oi seeds a temporary row, or moves the one there is.
    method LearnTemp(oi: nat, client: Client, ttvn: u8, now: u32)
      requires Valid()
      modifies rows, `nrows
      ensures Valid() && SameTables(old(rows[..]), rows[..])
      // An announced client is left alone; else the client's one row is temporary, at oi.
      ensures AnnouncedByAny(old(rows[..]), client) ==> rows[..] == old(rows[..])
      ensures NoRow(old(rows[..]), client, ROWS) ==>
                Learned(old(rows[..]), rows[..], Row(true, client, oi, 0x01, ttvn, now), now)
      ensures forall i :: 0 <= i < ROWS && old(rows[i]).Temp() && old(rows[i]).client == client ==>
        rows[..] == if old(rows[i]).orig == oi then old(rows[..])
            else old(rows[..])[i := old(rows[i]).(orig := oi, ttvn := ttvn)]
      ensures OnlyOrig(old(rows[..]), rows[..], oi)
    {
      ghost var was := rows[..];
      SameOrig(was, oi);
      var at := -1;
      for k := 0 to ROWS
        modifies {}
        invariant -1 <= at < k
        invariant forall j :: 0 <= j < k && rows[j].used && rows[j].client == client ==> rows[j].Temp() && at != -1
        invariant at != -1 ==> rows[at].Temp() && rows[at].client == client
      {
        hide Sound, CountUsed, CountTemp;
        if rows[k].used && rows[k].client == client {
          if !IsTemp(rows[k].flags) {
            return;
          }
          at := k;
        }
      }
      assert !AnnouncedByAny(was, client);
      if at != -1 {
        if rows[at].orig != oi {
          Moved(rows[..], at, oi, ttvn);
          MovedOrig(was, at, oi, ttvn);
          hide *;
          Put(at, rows[at].(orig := oi, ttvn := ttvn));
          assert rows[at].orig == oi;
        }
        return;
      }
      NewTemp(oi, client, ttvn, now);
      LearnedOrig(was, rows[..], Row(true, client, oi, 0x01, ttvn, now), now);
    }

    // Rows learned from data never pass the cap, and give way to nothing else.
    method TempRoom(client: Client, ghost oi: nat, now: u32)
      requires Valid() && NoRow(rows[..], client, ROWS)
      modifies rows, `nrows
      ensures Valid() && Sound(rows[..]) && |rows[..]| == ROWS
      ensures SameTables(old(rows[..]), rows[..]) && CountTemp(rows[..]) < TEMP_MAX
      ensures NoRow(rows[..], client, ROWS) && NoTemp(rows[..], client, ROWS) && Absent(rows[..], client, oi)
      ensures rows[..] == old(rows[..])
              || (Crowded(old(rows[..]))
                   && exists t: nat :: OldestTemp(old(rows[..]), t, now) && rows[..] == old(rows[..])[t := Free()])
      ensures nrows >= ROWS ==> rows[..] == old(rows[..]) && !HasRoom(old(rows[..]))
    {
      ghost var was := rows[..];
      CountsBound(was);
      var oldest, n := TempOldest(now);
      if oldest != -1 && (n >= TEMP_MAX || nrows >= ROWS) {
        PutFree(rows[..], oldest);
        PutSame(rows[..], oldest, Free());
        RowFree(oldest);
      }
      CountsBound(rows[..]);
    }

    method NewTemp(oi: nat, client: Client, ttvn: u8, now: u32)
      requires Valid() && NoRow(rows[..], client, ROWS)
      modifies rows, `nrows
      ensures Valid() && SameTables(old(rows[..]), rows[..])
      ensures Learned(old(rows[..]), rows[..], Row(true, client, oi, 0x01, ttvn, now), now)
    {
      ghost var was := rows[..];
      hide *;
      TempRoom(client, oi, now);
      ghost var mid := rows[..];
      var i := RowNew(client, oi);
      var r := Row(true, client, oi, 0x01, ttvn, now);
      if i != -1 {
        TempFits(was, mid, rows[..], i, r);
        LearnedRow(was, mid, i, r, now);
        assert rows[..][i := r] == mid[i := r];
        Put(i, r);
      } else {
        NoneLearned(was, r, now);
      }
    }

    // Temporary rows past their time go, and only those.
    method PurgeTemps(now: u32)
      requires Valid()
      modifies rows, `nrows
      ensures Valid() && SameTables(old(rows[..]), rows[..])
      ensures forall j :: 0 <= j < ROWS ==>
        rows[j] == (if old(rows[j]).Temp() && Age(now, old(rows[j]).ts) > TEMP_MS then Free() else old(rows[j]))
    {
      ghost var was := rows[..];
      for k := 0 to ROWS
        invariant Valid() && SameTables(was, rows[..])
        invariant forall j :: 0 <= j < k ==>
          rows[j] == (if was[j].Temp() && Age(now, was[j].ts) > TEMP_MS then Free() else was[j])
        invariant forall j :: k <= j < ROWS ==> rows[j] == was[j]
      {
        hide Sound, CountUsed, CountTemp, Announced, Fits, Age;
        if rows[k].used && IsTemp(rows[k].flags) && Age(now, rows[k].ts) > TEMP_MS {
          PutFree(rows[..], k);
          PutSame(rows[..], k, Free());
          RowFree(k);
        }
      }
    }
  }

  lemma AddPut(was: seq<Row>, mid: seq<Row>, rows: seq<Row>, i: nat, oi: nat, client: Client, flags: bv8, ttvn: u8,
               now: u32)
    requires Sound(mid) && |mid| == ROWS && i < ROWS && SameTables(was, mid) && NoTemp(mid, client, ROWS)
    requires
      || (rows == mid && mid[i].used && mid[i].client == client && mid[i].orig == oi)
      || (rows == mid[i := Row(true, client, oi, 0, 0, 0)] && !mid[i].used && Absent(mid, client, oi))
    ensures
      var r := Row(true, client, oi, SyncFlags(flags), ttvn, now);
      && Fits(rows, i, r) && rows[i].used && !r.Temp()
      && Added(was, oi, client, SyncFlags(flags), rows[i := r]) && NoTemp(rows[i := r], client, ROWS)
  {
    SyncIsAnnounced(flags);
    var r := Row(true, client, oi, SyncFlags(flags), ttvn, now);
    hide SyncFlags, IsTemp, Announced;
    if mid[i].used {
      forall j | 0 <= j < ROWS && j != i
        ensures Compatible(mid[i], mid[j])
      {
        assert Compatible(mid[if i < j then i else j], mid[if i < j then j else i]);
      }
    }
    assert rows[i := r] == mid[i := r];
    forall oj
      ensures Announced(rows[i := r], oj) ==
              if oj == oi then Announced(was, oj)[client := SyncFlags(flags)] else Announced(was, oj)
    {
      PutAnnounced(mid, i, r, oj);
    }
  }

  // Rows of originators other than oi are rows they had.
  ghost predicate OnlyOrig(was: seq<Row>, rows: seq<Row>, oi: nat) {
    |was| == |rows| && forall j :: 0 <= j < |rows| && rows[j].used ==>
      rows[j].orig == oi || (was[j].used && was[j].orig == rows[j].orig)
  }

  lemma SameOrig(was: seq<Row>, oi: nat)
    ensures OnlyOrig(was, was, oi)
  {
  }

  lemma OrigTwice(was: seq<Row>, mid: seq<Row>, rows: seq<Row>, oi: nat)
    requires OnlyOrig(was, mid, oi) && OnlyOrig(mid, rows, oi)
    ensures OnlyOrig(was, rows, oi)
  {
  }

  lemma FreedOrig(was: seq<Row>, mid: seq<Row>, i: nat, oi: nat)
    requires OnlyOrig(was, mid, oi) && i < |mid|
    ensures OnlyOrig(was, mid[i := Free()], oi)
  {
  }

  lemma AddedOrig(was: seq<Row>, rows: seq<Row>, i: nat, r: Row, now: u32)
    requires AddedRow(was, rows, i, r, now)
    ensures OnlyOrig(was, rows, r.orig)
  {
    hide Age, CountUsed;
  }

  lemma MovedOrig(was: seq<Row>, at: nat, oi: nat, ttvn: u8)
    requires at < |was|
    ensures OnlyOrig(was, was[at := was[at].(orig := oi, ttvn := ttvn)], oi)
  {
  }

  lemma LearnedOrig(was: seq<Row>, rows: seq<Row>, r: Row, now: u32)
    requires Learned(was, rows, r, now)
    ensures OnlyOrig(was, rows, r.orig)
  {
    hide Age, CountUsed, CountTemp;
  }

  lemma AddRows(was: seq<Row>, kept: seq<Row>, mid: seq<Row>, i: nat, r: Row, now: u32)
    requires |was| == |kept| == |mid| == ROWS && i < ROWS
    requires forall j :: 0 <= j < ROWS ==> kept[j] == WithoutTemp(was[j], r.client)
    requires mid == kept || (CountUsed(was) >= ROWS && kept == was
             && exists t: nat :: OldestTemp(kept, t, now) && mid == kept[t := Free()])
    requires !mid[i].used || (mid[i].client == r.client && mid[i].orig == r.orig)
    ensures AddedRow(was, mid[i := r], i, r, now)
  {
    hide Age;
  }

  ghost predicate HasRoom(rows: seq<Row>) {
    exists j :: 0 <= j < |rows| && (!rows[j].used || rows[j].Temp())
  }

  // Originator oi now announces the client with these flags, and nobody else anything new.
  ghost predicate Added(a: seq<Row>, oi: nat, client: Client, flags: bv8, b: seq<Row>) {
    Announced(b, oi) == Announced(a, oi)[client := flags] && SameOthers(a, b, oi)
  }

  lemma FindIsMember(rows: seq<Row>, client: Client, oi: nat, i: int)
    requires Sound(rows) && |rows| == ROWS && NoTemp(rows, client, ROWS) && -1 <= i < ROWS
    requires if i != -1 then rows[i].used && rows[i].client == client && rows[i].orig == oi
             else Absent(rows, client, oi)
    ensures i != -1 <==> client in Announced(rows, oi)
  {
    AnnouncedSays(rows, oi);
  }

  lemma {:induction false} NoneUsed(rows: seq<Row>)
    requires forall i :: 0 <= i < |rows| ==> !rows[i].used
    ensures CountUsed(rows) == 0
  {
    if rows != [] {
      NoneUsed(rows[..|rows| - 1]);
    }
  }

  lemma PutFree(rows: seq<Row>, i: nat)
    requires Sound(rows) && i < |rows|
    ensures Fits(rows, i, Free()) && Sound(rows[i := Free()])
  {
  }

  ghost predicate AnnouncedByAny(rows: seq<Row>, c: Client) {
    exists j :: 0 <= j < |rows| && rows[j].used && !rows[j].Temp() && rows[j].client == c
  }

  lemma TempFits(was: seq<Row>, mid: seq<Row>, rows: seq<Row>, i: nat, r: Row)
    requires Sound(mid) && |mid| == ROWS && i < ROWS && SameTables(was, mid) && !mid[i].used
    requires rows == mid[i := Row(true, r.client, r.orig, 0, 0, 0)]
    requires r.Temp() && NoRow(mid, r.client, ROWS)
    ensures Fits(rows, i, r) && rows[i].used && SameTables(was, rows[i := r])
  {
    assert rows[i := r] == mid[i := r];
    PutSame(mid, i, r);
  }

  lemma Moved(rows: seq<Row>, at: nat, oi: nat, ttvn: u8)
    requires Sound(rows) && at < |rows| && rows[at].Temp()
    ensures
      var r := rows[at].(orig := oi, ttvn := ttvn);
      Fits(rows, at, r) && r.used && r.Temp() && SameTables(rows, rows[at := r])
  {
    var r := rows[at].(orig := oi, ttvn := ttvn);
    forall j | 0 <= j < |rows| && j != at
      ensures Compatible(r, rows[j])
    {
      assert Compatible(rows[if at < j then at else j], rows[if at < j then j else at]);
    }
    PutSame(rows, at, r);
  }

  lemma FreedOthers(rows: seq<Row>, k: nat, oi: nat)
    requires Sound(rows) && k < |rows| && rows[k].used && rows[k].orig == oi
    ensures SameOthers(rows, rows[k := Free()], oi)
  {
    PutFree(rows, k);
    forall oj | oj != oi
      ensures Announced(rows, oj) == Announced(rows[k := Free()], oj)
    {
      PutAnnounced(rows, k, Free(), oj);
    }
  }

  ghost function EntriesBelow(rows: seq<Row>, oi: nat, vid: bv16, k: nat): set<Entry>
    requires k <= |rows|
  {
    set i | 0 <= i < k && rows[i].Ann(oi) && rows[i].client.vid == vid :: Entry(rows[i].client, rows[i].flags)
  }

  lemma EntriesStep(rows: seq<Row>, oi: nat, vid: bv16, k: nat)
    requires Sound(rows) && k < |rows|
    ensures
      var e := Entry(rows[k].client, rows[k].flags);
      if rows[k].Ann(oi) && rows[k].client.vid == vid
      then e !in EntriesBelow(rows, oi, vid, k) &&
           EntriesBelow(rows, oi, vid, k + 1) == EntriesBelow(rows, oi, vid, k) + {e}
      else EntriesBelow(rows, oi, vid, k + 1) == EntriesBelow(rows, oi, vid, k)
  {
    assert forall i :: 0 <= i < k ==> Compatible(rows[i], rows[k]);
  }

  lemma EntriesAll(rows: seq<Row>, oi: nat, vid: bv16)
    requires Sound(rows)
    ensures EntriesBelow(rows, oi, vid, |rows|) == InVlan(Announced(rows, oi), vid)
  {
    AnnouncedSays(rows, oi);
    var t := Announced(rows, oi);
    forall e
      ensures e in EntriesBelow(rows, oi, vid, |rows|) <==> e in InVlan(t, vid)
    {
      if e in InVlan(t, vid) {
        var i :| 0 <= i < |rows| && rows[i].Ann(oi) && rows[i].client == e.client;
      }
    }
  }

  lemma ApplyStep(t: Table, ch: seq<Change>, k: nat, full: bool)
    requires k < |ch|
    ensures ApplyAll(t, ch[..k + 1], full) == ApplyOne(ApplyAll(t, ch[..k], full), ch[k], full)
  {
    assert ch[..k + 1][..k] == ch[..k];
  }

  lemma DelFound(rows: seq<Row>, client: Client, oi: nat, i: int)
    requires Sound(rows) && |rows| == ROWS && -1 <= i < ROWS
    requires if i != -1 then rows[i].used && rows[i].client == client && rows[i].orig == oi
             else Absent(rows, client, oi)
    ensures if i == -1 then Announced(rows, oi) == Announced(rows, oi) - {client}
            else Announced(rows[i := Free()], oi) == Announced(rows, oi) - {client}
                 && SameOthers(rows, rows[i := Free()], oi)
  {
    AnnouncedSays(rows, oi);
    if i != -1 {
      PutFree(rows, i);
      PutAnnounced(rows, i, Free(), oi);
      FreedOthers(rows, i, oi);
    }
  }
}
