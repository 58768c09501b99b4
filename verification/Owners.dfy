// The engine's tables together (main/bat/bat_internal.h, struct bat): every client row and every
// fragment slot belongs to an originator that is still there, and goes only with it
// (main/bat/bat_orig.c, orig_free and bat_orig_recompute; bat_tt.c, bat_tt_orig_gone;
// bat_frag.c, bat_frag_orig_gone).
module Owners {
  import opened Words
  import Tables
  import TtRows
  import TtClients
  import TtSync
  import FragSlots
  import FragAssembly
  import FragSplit

  type Rows = seq<TtRows.Row>
  type Slots = seq<FragSlots.Slot>

  // Used rows, and used slots, name originators of a set.
  ghost predicate RowsOwned(rows: Rows, owners: set<nat>) {
    forall j :: 0 <= j < |rows| && rows[j].used ==> rows[j].orig in owners
  }

  ghost predicate SlotsOwned(slots: Slots, holders: set<nat>) {
    forall j :: 0 <= j < |slots| && slots[j].used ==> slots[j].key.orig in holders
  }

  // Exactly the rows, or slots, of the originators gone are empty now.
  ghost predicate RowsLeft(was: Rows, rows: Rows, gone: set<nat>) {
    && |was| == |rows|
    && forall j :: 0 <= j < |rows| ==>
         rows[j] == if was[j].used && was[j].orig in gone then TtRows.Free() else was[j]
  }

  ghost predicate SlotsLeft(was: Slots, slots: Slots, gone: set<nat>) {
    && |was| == |slots|
    && forall j :: 0 <= j < |slots| ==>
         slots[j] == if was[j].used && was[j].key.orig in gone then was[j].Freed() else was[j]
  }

  // Every other originator announces what it did.
  ghost predicate TablesStay(was: Rows, rows: Rows, gone: set<nat>) {
    forall oi: nat :: oi !in gone ==> TtRows.Announced(rows, oi) == TtRows.Announced(was, oi)
  }

  ghost predicate Indices(s: set<nat>) {
    forall x :: x in s ==> x < Tables.MAX_ORIG
  }

  function Below(s: set<nat>, n: nat): set<nat> {
    set x | x in s && x < n
  }

  lemma BelowAll(s: set<nat>)
    requires Indices(s)
    ensures Below(s, Tables.MAX_ORIG) == s && Below(s, 0) == {}
  {
  }

  lemma RowsNext(was: Rows, mid: Rows, rows: Rows, gone: set<nat>, n: nat)
    requires RowsLeft(was, mid, Below(gone, n)) && |mid| == |rows|
    requires
      forall j :: 0 <= j < |rows| ==>
        rows[j] == if n in gone && mid[j].used && mid[j].orig == n then TtRows.Free() else mid[j]
    ensures RowsLeft(was, rows, Below(gone, n + 1))
  {
  }

  lemma SlotsNext(was: Slots, mid: Slots, slots: Slots, gone: set<nat>, n: nat)
    requires SlotsLeft(was, mid, Below(gone, n)) && |mid| == |slots|
    requires
      forall j :: 0 <= j < |slots| ==>
        slots[j] == if n in gone && mid[j].used && mid[j].key.orig == n then mid[j].Freed() else mid[j]
    ensures SlotsLeft(was, slots, Below(gone, n + 1))
  {
  }

  lemma EmptiedAt(was: Slots, slots: Slots, orig: nat)
    requires FragSlots.Emptied(was, slots, (s: FragSlots.Slot) => s.key.orig == orig, FragSlots.SLOTS)
    ensures |was| == |slots|
    ensures
      forall j :: 0 <= j < |slots| ==>
        slots[j] == if was[j].used && was[j].key.orig == orig then was[j].Freed() else was[j]
  {
    hide FragSlots.Slot.Freed;
  }

  lemma RowsSettled(was: Rows, rows: Rows, owners: set<nat>, owners': set<nat>)
    requires RowsOwned(was, owners) && RowsLeft(was, rows, owners - owners')
    ensures RowsOwned(rows, owners')
  {
  }

  lemma SlotsSettled(was: Slots, slots: Slots, holders: set<nat>, holders': set<nat>)
    requires SlotsOwned(was, holders) && SlotsLeft(was, slots, holders - holders')
    ensures SlotsOwned(slots, holders')
  {
  }

  // The rows of those who stay say what they said.
  lemma LeftSay(was: Rows, rows: Rows, gone: set<nat>)
    requires TtRows.Sound(was) && TtRows.Sound(rows) && RowsLeft(was, rows, gone)
    ensures TablesStay(was, rows, gone)
  {
    forall oi: nat | oi !in gone
      ensures TtRows.Announced(rows, oi) == TtRows.Announced(was, oi)
    {
      TtRows.AnnouncedSays(was, oi);
      SaysStill(was, rows, gone, oi, TtRows.Announced(was, oi));
      TtRows.SaysUnique(rows, oi, TtRows.Announced(was, oi));
    }
  }

  lemma SaysStill(was: Rows, rows: Rows, gone: set<nat>, oi: nat, t: TtClients.Table)
    requires RowsLeft(was, rows, gone) && oi !in gone && TtRows.Says(was, oi, t)
    ensures TtRows.Says(rows, oi, t)
  {
    forall c | c in t
      ensures exists i :: 0 <= i < |rows| && rows[i].Ann(oi) && rows[i].client == c
    {
      var i :| 0 <= i < |was| && was[i].Ann(oi) && was[i].client == c;
      assert rows[i] == was[i];
    }
  }

  // Over any run of operations that leave an originator's table alone, each naming in gone those it
  // may change, a receiver in sync with that originator stays so.
  lemma {:induction false} SyncStays(run: seq<Rows>, gone: seq<set<nat>>, oi: nat, ttvn: u8, known: bool,
                                     tables: seq<TtClients.Table>, rv: nat)
    requires |run| == |gone| + 1
    requires forall i :: 0 <= i < |gone| ==> TablesStay(run[i], run[i + 1], gone[i]) && oi !in gone[i]
    requires TtSync.InSync(TtSync.Copy(TtRows.Announced(run[0], oi), ttvn, known), tables, rv)
    ensures TtSync.InSync(TtSync.Copy(TtRows.Announced(run[|gone|], oi), ttvn, known), tables, rv)
  {
    hide TtSync.InSync, TtRows.Announced;
    if gone != [] {
      assert TablesStay(run[0], run[1], gone[0]);
      SyncStays(run[1..], gone[1..], oi, ttvn, known, tables, rv);
    }
  }

  lemma OthersStay(was: Rows, rows: Rows, oi: nat)
    requires TtRows.SameOthers(was, rows, oi)
    ensures TablesStay(was, rows, {oi})
  {
    hide TtRows.Announced;
  }

  lemma AllStay(was: Rows, rows: Rows)
    requires TtRows.SameTables(was, rows)
    ensures TablesStay(was, rows, {})
  {
    hide TtRows.Announced;
  }

  // Rows of oi, once it is an owner, may come; and slots.
  lemma RowsCome(was: Rows, rows: Rows, oi: nat, owners: set<nat>)
    requires RowsOwned(was, owners) && TtRows.OnlyOrig(was, rows, oi)
    ensures RowsOwned(rows, owners + {oi})
  {
  }

  lemma SlotsCome(was: Slots, slots: Slots, oi: nat, holders: set<nat>)
    requires SlotsOwned(was, holders) && FragSlots.OnlyOrig(was, slots, oi)
    ensures SlotsOwned(slots, holders + {oi})
  {
  }

  lemma SlotsStay(slots: Slots, orig: nat)
    ensures FragSlots.OnlyOrig(slots, slots, orig)
  {
  }

  // ---- the purge ------------------------------------------------------------------------------

  predicate StaleRow(r: TtRows.Row, now: u32) {
    r.Temp() && Age(now, r.ts) > TtRows.TEMP_MS
  }

  predicate StaleSlot(s: FragSlots.Slot, now: u32) {
    s.used && Age(now, s.ts) > FragSlots.TIMEOUT_MS
  }

  // Exactly those of the originators gone and those past their time are empty now.
  ghost predicate RowsPurged(was: Rows, rows: Rows, gone: set<nat>, now: u32) {
    && |was| == |rows|
    && forall j :: 0 <= j < |rows| ==>
         rows[j] == if (was[j].used && was[j].orig in gone) || StaleRow(was[j], now) then TtRows.Free() else was[j]
  }

  ghost predicate SlotsPurged(was: Slots, slots: Slots, gone: set<nat>, now: u32) {
    && |was| == |slots|
    && forall j :: 0 <= j < |slots| ==>
         slots[j] ==
           if (was[j].used && was[j].key.orig in gone) || StaleSlot(was[j], now) then was[j].Freed() else was[j]
  }

  lemma RowsThenPurged(was: Rows, mid: Rows, rows: Rows, gone: set<nat>, owners: set<nat>, now: u32)
    requires RowsLeft(was, mid, gone) && |mid| == |rows| && RowsOwned(mid, owners)
    requires forall j :: 0 <= j < |rows| ==> rows[j] == if StaleRow(mid[j], now) then TtRows.Free() else mid[j]
    ensures RowsPurged(was, rows, gone, now) && RowsOwned(rows, owners)
  {
    hide Age;
  }

  lemma SlotsThenPurged(was: Slots, mid: Slots, slots: Slots, gone: set<nat>, holders: set<nat>, now: u32)
    requires SlotsLeft(was, mid, gone) && SlotsOwned(mid, holders)
    requires
      FragSlots.Emptied(mid, slots, (s: FragSlots.Slot) => Age(now, s.ts) > FragSlots.TIMEOUT_MS, FragSlots.SLOTS)
    ensures SlotsPurged(was, slots, gone, now) && SlotsOwned(slots, holders)
  {
    hide Age;
  }

  lemma PurgedSay(was: Rows, mid: Rows, rows: Rows, gone: set<nat>)
    requires TablesStay(was, mid, gone) && TtRows.SameTables(mid, rows)
    ensures TablesStay(was, rows, gone)
  {
    hide TtRows.Announced;
  }

  // ---- the tables ---------------------------------------------------------------------------

  class Engine {
    const tables: Tables.Tables
    const rows: TtRows.RowTable
    const slots: FragSlots.Reassembly

    // Each part is sound, and whatever names an originator names one in use.
    ghost predicate Valid()
      reads tables, tables.neigh, tables.orig, rows, rows.rows, slots.slots
    {
      && tables.Valid() && rows.Valid() && slots.Valid()
      && RowsOwned(rows.rows[..], tables.ttOwners) && SlotsOwned(slots.slots[..], tables.fragOwners)
    }

    constructor ()
      ensures Valid() && fresh(tables) && fresh(tables.neigh) && fresh(tables.orig)
      ensures fresh(rows) && fresh(rows.rows) && fresh(slots.slots)
    {
      tables := new Tables.Tables();
      rows := new TtRows.RowTable();
      slots := new FragSlots.Reassembly();
    }

    // So a row or a slot in use leads to an originator in use.
    lemma OwnersUsed()
      requires Valid()
      ensures forall j :: 0 <= j < TtRows.ROWS && rows.rows[j].used ==>
        rows.rows[j].orig < Tables.MAX_ORIG && tables.orig[rows.rows[j].orig].used
      ensures forall j :: 0 <= j < FragSlots.SLOTS && slots.slots[j].used ==>
        slots.slots[j].key.orig < Tables.MAX_ORIG && tables.orig[slots.slots[j].key.orig].used
    {
      var r, s := rows.rows[..], slots.slots[..];
      assert |r| == TtRows.ROWS && |s| == FragSlots.SLOTS;
      hide TtRows.Sound, FragSlots.Slot.Ok, Tables.CountedBut, Tables.UniqueAddrs, Tables.Routed;
    }

    lemma OwnersBelow()
      requires tables.Valid()
      ensures Indices(tables.ttOwners) && Indices(tables.fragOwners)
    {
      hide Tables.CountedBut, Tables.UniqueAddrs, Tables.Routed;
    }

    lemma RowsSound()
      requires rows.Valid()
      ensures TtRows.Sound(rows.rows[..])
    {
    }

    // bat_tt_orig_gone and bat_frag_orig_gone of every originator the tables gave up: exactly
    // their rows and slots go.
    method Settle(owners: set<nat>, holders: set<nat>)
      requires tables.Valid() && rows.Valid() && slots.Valid()
      requires Indices(owners) && Indices(holders)
      requires RowsOwned(rows.rows[..], owners) && SlotsOwned(slots.slots[..], holders)
      modifies rows, rows.rows, slots.slots
      ensures Valid()
      ensures RowsLeft(old(rows.rows[..]), rows.rows[..], owners - tables.ttOwners)
      ensures SlotsLeft(old(slots.slots[..]), slots.slots[..], holders - tables.fragOwners)
      ensures TablesStay(old(rows.rows[..]), rows.rows[..], owners - tables.ttOwners)
    {
      ghost var r0, s0 := rows.rows[..], slots.slots[..];
      var gone, left := owners - tables.ttOwners, holders - tables.fragOwners;
      RowsSound();
      BelowAll(gone);
      BelowAll(left);
      assert rows.rows.Length == TtRows.ROWS;
      hide Tables.Tables.Valid, TtRows.RowTable.Valid, FragSlots.Reassembly.Valid, TtRows.Sound, Below;
      for i := 0 to Tables.MAX_ORIG
        invariant rows.Valid() && slots.Valid()
        invariant RowsLeft(r0, rows.rows[..], Below(gone, i)) && SlotsLeft(s0, slots.slots[..], Below(left, i))
      {
        ghost var r, s := rows.rows[..], slots.slots[..];
        hide RowsLeft, SlotsLeft, FragSlots.Slot.Freed, FragSlots.Emptied;
        if i in gone {
          rows.RowsDelOrig(i);
        }
        RowsNext(r0, r, rows.rows[..], gone, i);
        if i in left {
          slots.OrigGone(i);
          EmptiedAt(s, slots.slots[..], i);
        }
        SlotsNext(s0, s, slots.slots[..], left, i);
      }
      RowsSound();
      LeftSay(r0, rows.rows[..], gone);
      RowsSettled(r0, rows.rows[..], owners, tables.ttOwners);
      SlotsSettled(s0, slots.slots[..], holders, tables.fragOwners);
    }

    // orig_free
    method Free(i: nat)
      requires Valid() && i < Tables.MAX_ORIG && tables.orig[i].used
      modifies tables, tables.neigh, tables.orig, rows, rows.rows, slots.slots
      ensures Valid() && tables.orig[..] == old(tables.orig[..])[i := Tables.NoOrig()]
      ensures RowsLeft(old(rows.rows[..]), rows.rows[..], {i}) && SlotsLeft(old(slots.slots[..]), slots.slots[..], {i})
      ensures TablesStay(old(rows.rows[..]), rows.rows[..], {i})
    {
      OwnersBelow();
      var owners, holders := tables.ttOwners, tables.fragOwners;
      ghost var r, s := rows.rows[..], slots.slots[..];
      RowsSound();
      hide *;
      tables.OrigFree(i);
      Settle(owners, holders);
      OnlyHis(r, rows.rows[..], owners, s, slots.slots[..], holders, i);
      RowsSound();
      LeftSay(r, rows.rows[..], {i});
    }

    // The tables' part of bat_tick.
    method Purge(now: u32)
      requires Valid()
      modifies tables, tables.neigh, tables.orig, rows, rows.rows, slots.slots
      ensures Valid() && Tables.Purging(old(tables.orig[..]), tables.orig[..], Tables.MAX_ORIG, now)
      ensures Tables.OwnersLeft(old(tables.ttOwners), old(tables.orig[..]), tables.ttOwners, tables.orig[..])
      ensures Tables.HoldersLeft(old(tables.fragOwners), old(tables.orig[..]), tables.fragOwners, tables.orig[..])
      ensures RowsPurged(old(rows.rows[..]), rows.rows[..], old(tables.ttOwners) - tables.ttOwners, now)
      ensures SlotsPurged(old(slots.slots[..]), slots.slots[..], old(tables.fragOwners) - tables.fragOwners, now)
      ensures TablesStay(old(rows.rows[..]), rows.rows[..], old(tables.ttOwners) - tables.ttOwners)
    {
      OwnersBelow();
      var owners, holders := tables.ttOwners, tables.fragOwners;
      ghost var r0, s0 := rows.rows[..], slots.slots[..];
      hide *;
      tables.Purge(now);
      Settle(owners, holders);
      ghost var r, s := rows.rows[..], slots.slots[..];
      rows.PurgeTemps(now);
      slots.Purge(now);
      PurgedSay(r0, r, rows.rows[..], owners - tables.ttOwners);
      RowsThenPurged(r0, r, rows.rows[..], owners - tables.ttOwners, tables.ttOwners, now);
      SlotsThenPurged(s0, s, slots.slots[..], holders - tables.fragOwners, tables.fragOwners, now);
    }

    method ElpRx(self: Tables.Mac, hard: Tables.Mac, own: Tables.Mac, seqno: u32, now: u32) returns (taken: bool)
      requires Valid()
      modifies tables, tables.neigh, tables.orig, rows, rows.rows, slots.slots
      ensures Valid()
      ensures taken <==>
        && own != self && Tables.Room(old(tables.neigh[..]), hard, now)
        && Tables.Admits(old(tables.neigh[..]), old(tables.orig[..]), own, true, now)
        && !Tables.Seen(old(tables.neigh[..]), hard, seqno)
      ensures
        && own != self && Tables.Room(old(tables.neigh[..]), hard, now)
        && Tables.Admits(old(tables.neigh[..]), old(tables.orig[..]), own, true, now)
        ==> Tables.Met(old(tables.neigh[..]), old(tables.orig[..]), tables.neigh[..], tables.orig[..], hard, own, seqno,
                       now, taken)
      ensures taken ==> Tables.HeardFrom(tables.neigh[..], tables.orig[..], hard, own, seqno, now)
      ensures Tables.OwnersLeft(old(tables.ttOwners), old(tables.orig[..]), tables.ttOwners, tables.orig[..])
      ensures Tables.HoldersLeft(old(tables.fragOwners), old(tables.orig[..]), tables.fragOwners, tables.orig[..])
      ensures RowsLeft(old(rows.rows[..]), rows.rows[..], old(tables.ttOwners) - tables.ttOwners)
      ensures SlotsLeft(old(slots.slots[..]), slots.slots[..], old(tables.fragOwners) - tables.fragOwners)
      ensures TablesStay(old(rows.rows[..]), rows.rows[..], old(tables.ttOwners) - tables.ttOwners)
    {
      OwnersBelow();
      var owners, holders := tables.ttOwners, tables.fragOwners;
      hide *;
      taken := tables.ElpRx(self, hard, own, seqno, now);
      Settle(owners, holders);
    }

    method OgmRecord(addr: Tables.Mac, n: nat, inDefault: bool, inIface: bool, seqno: u32, ttl: nat, tput: u32,
                     ifTput: u32, now: u32)
      returns (i: int)
      requires Valid() && n < Tables.MAX_NEIGH && tables.neigh[n].used
      modifies tables, tables.neigh, tables.orig, rows, rows.rows, slots.slots
      ensures Valid() && -1 <= i < Tables.MAX_ORIG
      ensures i != -1 <==> Tables.Admits(old(tables.neigh[..]), old(tables.orig[..]), addr, false, now)
      ensures i != -1 ==>
        && tables.orig[i].used && tables.orig[i].addr == addr
        && tables.orig[..] == old(tables.orig[..])[i := tables.orig[i]]
        && Tables.Recorded(Tables.Base(old(tables.orig[i]), addr, now), tables.orig[i], n,
                           if inDefault then Tables.Some(Tables.CandTbl(tput, seqno, ttl, true)) else Tables.None,
                           if inIface then Tables.Some(Tables.CandTbl(ifTput, seqno, ttl, true)) else Tables.None, now)
      ensures Tables.OwnersLeft(old(tables.ttOwners), old(tables.orig[..]), tables.ttOwners, tables.orig[..])
      ensures Tables.HoldersLeft(old(tables.fragOwners), old(tables.orig[..]), tables.fragOwners, tables.orig[..])
      ensures RowsLeft(old(rows.rows[..]), rows.rows[..], old(tables.ttOwners) - tables.ttOwners)
      ensures SlotsLeft(old(slots.slots[..]), slots.slots[..], old(tables.fragOwners) - tables.fragOwners)
      ensures TablesStay(old(rows.rows[..]), rows.rows[..], old(tables.ttOwners) - tables.ttOwners)
    {
      OwnersBelow();
      var owners, holders := tables.ttOwners, tables.fragOwners;
      hide *;
      i := tables.OgmRecord(addr, n, inDefault, inIface, seqno, ttl, tput, ifTput, now);
      Settle(owners, holders);
    }

    // Changes from an originator in use (apply).
    method Apply(oi: nat, ch: seq<TtClients.Change>, ttvn: u8, full: bool, now: u32) returns (ok: bool)
      requires Valid() && oi < Tables.MAX_ORIG && tables.orig[oi].used
      modifies tables`ttOwners, rows, rows.rows
      ensures Valid() && TablesStay(old(rows.rows[..]), rows.rows[..], {oi})
      ensures
        ok ==>
          TtRows.Announced(rows.rows[..], oi)
          == TtClients.ApplyAll(TtRows.Announced(old(rows.rows[..]), oi), ch, full)
      ensures !ok ==> !TtRows.HasRoom(rows.rows[..])
      ensures tables.ttOwners == old(tables.ttOwners) + {oi}
    {
      ghost var r, owners := rows.rows[..], tables.ttOwners;
      hide *;
      tables.OwnRows(oi);
      ok := rows.Apply(oi, ch, ttvn, full, now);
      OthersStay(r, rows.rows[..], oi);
      RowsCome(r, rows.rows[..], oi, owners);
    }

    // bat_tt_orig_gone alone, the originator staying: its rows go.
    method TtOrigGone(oi: nat)
      requires Valid()
      modifies rows, rows.rows
      ensures Valid() && RowsLeft(old(rows.rows[..]), rows.rows[..], {oi})
      ensures TablesStay(old(rows.rows[..]), rows.rows[..], {oi})
      ensures TtRows.Announced(rows.rows[..], oi) == map[]
    {
      ghost var r, owners := rows.rows[..], tables.ttOwners;
      assert rows.rows.Length == TtRows.ROWS;
      hide *;
      rows.RowsDelOrig(oi);
      OthersStay(r, rows.rows[..], oi);
      RowsWithout(r, rows.rows[..], oi, owners);
    }

    // A full-table answer (response): what there was goes, what it lists comes.
    method FullAnswer(oi: nat, ch: seq<TtClients.Change>, ttvn: u8, now: u32) returns (ok: bool)
      requires Valid() && oi < Tables.MAX_ORIG && tables.orig[oi].used
      modifies tables`ttOwners, rows, rows.rows
      ensures Valid() && TablesStay(old(rows.rows[..]), rows.rows[..], {oi})
      ensures ok ==> TtRows.Announced(rows.rows[..], oi) == TtClients.ApplyAll(map[], ch, true)
      ensures !ok ==> !TtRows.HasRoom(rows.rows[..])
    {
      hide *;
      ghost var r := rows.rows[..];
      TtOrigGone(oi);
      ghost var mid := rows.rows[..];
      ok := Apply(oi, ch, ttvn, true, now);
      OthersTwice(r, mid, rows.rows[..], oi);
    }

    // A client frame from an originator in use (bat_tt_learn_temp).
    method LearnTemp(oi: nat, client: TtClients.Client, ttvn: u8, now: u32)
      requires Valid() && oi < Tables.MAX_ORIG && tables.orig[oi].used
      modifies tables`ttOwners, rows, rows.rows
      ensures Valid() && TablesStay(old(rows.rows[..]), rows.rows[..], {})
      ensures TtRows.AnnouncedByAny(old(rows.rows[..]), client) ==> rows.rows[..] == old(rows.rows[..])
      ensures TtRows.NoRow(old(rows.rows[..]), client, TtRows.ROWS) ==>
        TtRows.Learned(old(rows.rows[..]), rows.rows[..], TtRows.Row(true, client, oi, 0x01, ttvn, now), now)
      ensures forall i :: 0 <= i < TtRows.ROWS && old(rows.rows[i]).Temp() && old(rows.rows[i]).client == client ==>
        rows.rows[..] ==
          if old(rows.rows[i]).orig == oi then old(rows.rows[..])
          else old(rows.rows[..])[i := old(rows.rows[i]).(orig := oi, ttvn := ttvn)]
    {
      ghost var r, owners := rows.rows[..], tables.ttOwners;
      hide *;
      tables.OwnRows(oi);
      rows.LearnTemp(oi, client, ttvn, now);
      AllStay(r, rows.rows[..]);
      RowsCome(r, rows.rows[..], oi, owners);
    }

    // A fragment from an originator in use (bat_frag_rx).
    method FragRx(key: FragSlots.Key, total: u16, num: nat, data: FragSplit.Bytes, now: u32)
      returns (i: int, out: FragAssembly.Option<FragSplit.Bytes>)
      requires Valid() && num < FragSplit.MAX_N && key.orig < Tables.MAX_ORIG && tables.orig[key.orig].used
      modifies tables`fragOwners, slots.slots
      ensures Valid()
      ensures FragSlots.StepOf(old(slots.slots[..]), FragSlots.Fragment(key, total, num, data, now, i, out),
                               slots.slots[..])
    {
      ghost var s, holders := slots.slots[..], tables.fragOwners;
      SlotsStay(s, key.orig);
      hide *;
      tables.OwnSlot(key.orig);
      i, out := slots.Rx(key, total, num, data, now);
      if !FragSlots.Malformed(total, data) {
        FragSlots.LandedOrig(s, key, total, num, data, now, i, slots.slots[..], out);
      }
      SlotsCome(s, slots.slots[..], key.orig, holders);
    }
  }

  lemma RowsWithout(was: Rows, rows: Rows, oi: nat, owners: set<nat>)
    requires RowsOwned(was, owners) && |was| == |rows|
    requires
      forall j :: 0 <= j < |rows| ==>
        rows[j] == if was[j].used && was[j].orig == oi then TtRows.Free() else was[j]
    ensures RowsLeft(was, rows, {oi}) && RowsOwned(rows, owners)
  {
  }

  lemma OthersTwice(was: Rows, mid: Rows, rows: Rows, oi: nat)
    requires TablesStay(was, mid, {oi}) && TablesStay(mid, rows, {oi})
    ensures TablesStay(was, rows, {oi})
  {
    hide TtRows.Announced;
  }

  lemma OnlyHis(was: Rows, rows: Rows, owners: set<nat>, s: Slots, slots: Slots, holders: set<nat>, i: nat)
    requires RowsOwned(was, owners) && RowsLeft(was, rows, owners - (owners - {i}))
    requires SlotsOwned(s, holders) && SlotsLeft(s, slots, holders - (holders - {i}))
    ensures RowsLeft(was, rows, {i}) && SlotsLeft(s, slots, {i})
  {
  }
}
