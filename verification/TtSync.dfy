// Keeping another node's table (main/bat/bat_tt.c, remote tables): diffs, re-sends and
// full-table answers, and what they do to a receiver's copy.
module TtSync {
  import opened Words
  import opened TtClients
  import opened TtRows
  import TtLocal

  type Tvlv = TtLocal.Tvlv
  type Vlan = TtLocal.Vlan

  // A receiver's copy of one originator's table: the announced rows, and the version it
  // believes they are.
  datatype Copy = Copy(rows: Table, ttvn: u8, known: bool)

  // crc_check on the announced rows alone (a VLAN record may also be matched by a
  // temporary row, which then has no part in the check).
  ghost predicate Checks(rows: Table, vlans: seq<Vlan>) {
    && (forall k :: 0 <= k < |vlans| ==> VlanCrc(rows, vlans[k].vid) == vlans[k].crc)
    && (forall v :: v in Vids(rows) ==> exists k :: 0 <= k < |vlans| && vlans[k].vid == v)
  }

  ghost predicate Repeats(vlans: seq<Vlan>) {
    exists i, j :: 0 <= i < j < |vlans| && vlans[i].vid == vlans[j].vid
  }

  predicate TakesDiff(c: Copy, ttvn: u8) {
    (!c.known && ttvn == 1) || ttvn == (c.ttvn + 1) % 256
  }

  // The copy after an OGM's container; asked: a full table or the missing diff is asked for.
  ghost predicate OgmTaken(c: Copy, tv: Tvlv, c': Copy, asked: bool) {
    if Repeats(tv.vlans) then c' == c && !asked
    else if TakesDiff(c, tv.ttvn) then
      if tv.changes == [] then c' == c && asked
      else
        && c'.ttvn == tv.ttvn
        && (c'.known ==> c'.rows == ApplyAll(c.rows, tv.changes, false))
        && (Checks(c'.rows, tv.vlans) && TtLocal.Describes(tv.vlans, c'.rows) ==> !asked)
        && (!Checks(c'.rows, tv.vlans) ==> asked)
    else
      && c' == c
      && (!c.known || tv.ttvn != c.ttvn || !Checks(c.rows, tv.vlans) ==> asked)
      && (c.known && tv.ttvn == c.ttvn && TtLocal.Describes(tv.vlans, c.rows) ==> !asked)
  }

  // The copy after a full-table answer for version ttvn.
  ghost predicate AnswerTaken(entries: seq<Change>, ttvn: u8, c': Copy) {
    c'.ttvn == ttvn && (c'.known ==> c'.rows == ApplyAll(map[], entries, true))
  }

  class Remote {
    const table: RowTable
    const oi: nat
    var ttvn: u8
    var known: bool
    var ann: u8
    var annValid: bool

    ghost function View(): Copy
      reads this, table, table.rows
    {
      Copy(Announced(table.rows[..], oi), ttvn, known)
    }

    constructor (table: RowTable, oi: nat)
      ensures this.table == table && this.oi == oi && ttvn == 0 && !known
    {
      this.table, this.oi, ttvn, known, ann, annValid := table, oi, 0, false, 0, false;
    }

    // Every announced VLAN has rows and the right check, and no announced row lies outside them.
    method CrcCheck(vlans: seq<Vlan>) returns (ok: bool)
      requires table.Valid()
      ensures ok <==> CrcOk(table.rows[..], oi, vlans)
      ensures TtLocal.Describes(vlans, Announced(table.rows[..], oi)) ==> ok
    {
      DescribedIsOk(table.rows[..], oi, vlans);
      UnfoldOk(table.rows[..], oi, vlans);
      hide *;
      for k := 0 to |vlans|
        invariant forall j :: 0 <= j < k ==> VlanOk(table.rows[..], oi, vlans[j])
      {
        var one := VlanCheck(vlans[k]);
        if !one {
          return false;
        }
      }
      ok := RowsListed(vlans);
    }

    method VlanCheck(v: Vlan) returns (ok: bool)
      requires table.Valid()
      ensures ok <==> VlanOk(table.rows[..], oi, v)
    {
      hide VlanCrc, Sound, CountUsed, CountTemp, Announced;
      var found := false;
      for i := 0 to ROWS
        invariant found <==> exists j :: 0 <= j < i && RowIn(table.rows[j], oi, v.vid)
      {
        if RowIn(table.rows[i], oi, v.vid) {
          found := true;
          break;
        }
      }
      if !found {
        return false;
      }
      var crc := table.OrigCrc(oi, v.vid);
      ok := crc == v.crc;
    }

    method RowsListed(vlans: seq<Vlan>) returns (ok: bool)
      requires table.Valid()
      ensures ok <==> RowsIn(table.rows[..], oi, vlans)
    {
      hide VlanCrc, Sound, CountUsed, CountTemp, Announced;
      for i := 0 to ROWS
        invariant forall j :: 0 <= j < i && table.rows[j].Ann(oi) ==> Listed(vlans, table.rows[j].client.vid)
      {
        var r := table.rows[i];
        if r.used && r.orig == oi && !IsTemp(r.flags) {
          var listed := false;
          for k := 0 to |vlans|
            invariant listed <==> exists j :: 0 <= j < k && vlans[j].vid == r.client.vid
          {
            if vlans[k].vid == r.client.vid {
              listed := true;
              break;
            }
          }
          if !listed {
            assert !Listed(vlans, table.rows[..][i].client.vid);
            return false;
          }
        }
      }
      return true;
    }

    // A VLAN named twice: the container is refused.
    method Repeated(vlans: seq<Vlan>) returns (r: bool)
      ensures r <==> Repeats(vlans)
    {
      var k := 1;
      while k < |vlans|
        invariant forall i, j :: 0 <= i < j < k && j < |vlans| ==> vlans[i].vid != vlans[j].vid
      {
        for j := 0 to k
          invariant forall i :: 0 <= i < j ==> vlans[i].vid != vlans[k].vid
        {
          if vlans[k].vid == vlans[j].vid {
            return true;
          }
        }
        k := k + 1;
      }
      return false;
    }

    // The TT container of an accepted OGM.
    method OgmRx(tv: Tvlv, now: u32) returns (asked: bool)
      requires table.Valid()
      modifies this, table.rows, table`nrows
      ensures table.Valid() && SameOthers(old(table.rows[..]), table.rows[..], oi)
      ensures OgmTaken(old(View()), tv, View(), asked)
      ensures if Repeats(tv.vlans) then ann == old(ann) && annValid == old(annValid) else ann == tv.ttvn && annValid
      // A diff taken is checked against the rows; so is a repeat of the version held.
      ensures !Repeats(tv.vlans) && TakesDiff(old(View()), tv.ttvn) && tv.changes != [] ==>
        asked == !CrcOk(table.rows[..], oi, tv.vlans)
      ensures !Repeats(tv.vlans) && !TakesDiff(old(View()), tv.ttvn) && known && tv.ttvn == ttvn ==>
        asked == !CrcOk(table.rows[..], oi, tv.vlans)
      // Only a table without room fails to take a diff.
      ensures !Repeats(tv.vlans) && TakesDiff(old(View()), tv.ttvn) && tv.changes != [] && HasRoom(table.rows[..]) ==>
                known
    {
      var again := Repeated(tv.vlans);
      hide VlanCrc, Sound, CountUsed, CountTemp, Announced,
           CrcOk, Repeats, Checks, ApplyAll, TtLocal.Describes, HasRoom;
      if again {
        return false;
      }
      ann, annValid := tv.ttvn, true;
      if (!known && tv.ttvn == 1) || tv.ttvn == (ttvn + 1) % 256 {
        if tv.changes == [] {
          return true;
        }
        var ok := table.Apply(oi, tv.changes, tv.ttvn, false, now);
        ttvn, known := tv.ttvn, ok;
        var good := CrcCheck(tv.vlans);
        OkIsChecked(table.rows[..], oi, tv.vlans);
        return !good;
      }
      if !known || tv.ttvn != ttvn {
        return true;
      }
      var good := CrcCheck(tv.vlans);
      OkIsChecked(table.rows[..], oi, tv.vlans);
      return !good;
    }

    // A TT response: a full table replaces the rows, a diff is added to them.
    method Response(ch: seq<Change>, version: u8, full: bool, now: u32)
      requires table.Valid()
      modifies this, table.rows, table`nrows
      ensures table.Valid() && SameOthers(old(table.rows[..]), table.rows[..], oi)
      ensures full ==> AnswerTaken(ch, version, View())
      ensures !full ==> ttvn == version
      ensures !full && known ==> View().rows == ApplyAll(old(View()).rows, ch, false)
      ensures HasRoom(table.rows[..]) ==> known
    {
      ghost var was := table.rows[..];
      hide Sound, CountUsed, CountTemp, Announced, ApplyAll, HasRoom;
      if full {
        table.RowsDelOrig(oi);
      }
      known := table.Apply(oi, ch, version, full, now);
      ttvn := version;
    }

    // bat_tt_orig_gone: the rows go, the version stays.
    method OrigGone()
      requires table.Valid()
      modifies this, table.rows, table`nrows
      ensures table.Valid() && SameOthers(old(table.rows[..]), table.rows[..], oi)
      ensures View() == Copy(map[], old(ttvn), false)
    {
      table.RowsDelOrig(oi);
      known := false;
    }
  }

  ghost predicate VlanOk(rows: seq<Row>, oi: nat, v: Vlan) {
    VlanHeld(rows, oi, v.vid) && VlanCrc(Announced(rows, oi), v.vid) == v.crc
  }

  ghost predicate RowsIn(rows: seq<Row>, oi: nat, vlans: seq<Vlan>) {
    forall j :: 0 <= j < |rows| && rows[j].Ann(oi) ==> Listed(vlans, rows[j].client.vid)
  }

  ghost predicate CrcOk(rows: seq<Row>, oi: nat, vlans: seq<Vlan>) {
    (forall j :: 0 <= j < |vlans| ==> VlanOk(rows, oi, vlans[j])) && RowsIn(rows, oi, vlans)
  }

  lemma UnfoldOk(rows: seq<Row>, oi: nat, vlans: seq<Vlan>)
    ensures CrcOk(rows, oi, vlans) <==>
      (forall j :: 0 <= j < |vlans| ==> VlanOk(rows, oi, vlans[j])) && RowsIn(rows, oi, vlans)
  {
  }

  lemma OkIsChecked(rows: seq<Row>, oi: nat, vlans: seq<Vlan>)
    requires Sound(rows)
    ensures CrcOk(rows, oi, vlans) ==> Checks(Announced(rows, oi), vlans)
  {
    AnnouncedSays(rows, oi);
  }

  // What the rows add to the check: a VLAN record must also find some row, temporary or not.
  lemma OkIs(rows: seq<Row>, oi: nat, vlans: seq<Vlan>)
    requires Sound(rows)
    ensures
      CrcOk(rows, oi, vlans) <==>
      Checks(Announced(rows, oi), vlans) && forall k :: 0 <= k < |vlans| ==> VlanHeld(rows, oi, vlans[k].vid)
  {
    OkIsChecked(rows, oi, vlans);
    AnnouncedSays(rows, oi);
    var t := Announced(rows, oi);
    hide Announced, VlanCrc, Sound;
    if Checks(t, vlans) {
      forall j | 0 <= j < |rows| && rows[j].Ann(oi)
        ensures Listed(vlans, rows[j].client.vid)
      {
        assert rows[j].client in t;
        assert rows[j].client.vid in Vids(t);
      }
    }
  }

  lemma DescribedIsOk(rows: seq<Row>, oi: nat, vlans: seq<Vlan>)
    requires Sound(rows)
    ensures TtLocal.Describes(vlans, Announced(rows, oi)) ==> CrcOk(rows, oi, vlans)
  {
    AnnouncedSays(rows, oi);
    var t := Announced(rows, oi);
    hide Announced, VlanCrc, Sound;
    if TtLocal.Describes(vlans, t) {
      forall j | 0 <= j < |rows| && rows[j].Ann(oi)
        ensures Listed(vlans, rows[j].client.vid)
      {
        assert rows[j].client in t;
        assert rows[j].client.vid in Vids(t);
      }
    }
  }

  ghost predicate VlanHeld(rows: seq<Row>, oi: nat, vid: bv16) {
    exists j :: 0 <= j < |rows| && RowIn(rows[j], oi, vid)
  }

  predicate RowIn(r: Row, oi: nat, vid: bv16) {
    r.used && r.orig == oi && r.client.vid == vid
  }

  ghost predicate Listed(vlans: seq<Vlan>, vid: bv16) {
    exists j :: 0 <= j < |vlans| && vlans[j].vid == vid
  }

  // ---- whole runs -------------------------------------------------------------------

  // What can reach a receiver: containers and full-table answers of any version the owner
  // has had, in any order and with any of them lost. tables: the owner's table of each version.
  datatype Event =
    | Ogm(tv: Tvlv, version: nat, asked: bool)
    | Answer(entries: seq<Change>, version: nat)

  ghost predicate Real(e: Event, tables: seq<Table>) {
    e.version < |tables| &&
    match e
    case Ogm(tv, w, _) => TtLocal.Genuine(tv, tables[..w + 1])
    case Answer(entries, v) => ApplyAll(map[], entries, true) == tables[v]
  }

  // The receiver is less than a turn of the version byte away from what arrives.
  predicate Near(rv: nat, e: Event) {
    e.Ogm? ==> -255 < e.version - rv < 256
  }

  // One event taken in, every add finding room.
  ghost predicate Taken(c: Copy, e: Event, c': Copy) {
    match e
    case Ogm(tv, _, asked) => OgmTaken(c, tv, c', asked) && (TakesDiff(c, tv.ttvn) && tv.changes != [] ==> c'.known)
    case Answer(entries, v) => AnswerTaken(entries, v % 256, c') && c'.known
  }

  // The copy is the owner's table of version rv. (Before the first, that is the empty one.)
  ghost predicate InSync(c: Copy, tables: seq<Table>, rv: nat) {
    rv < |tables| && c.rows == tables[rv] && c.ttvn == rv % 256 && (c.known || rv == 0)
  }

  // The diff to the next version moves the copy on, an answer takes it to its version.
  function NextVersion(rv: nat, e: Event): nat {
    match e
    case Ogm(tv, w, _) => if w == rv + 1 && tv.changes != [] then w else rv
    case Answer(_, v) => v
  }

  lemma DescribedChecks(rows: Table, vlans: seq<Vlan>)
    requires TtLocal.Describes(vlans, rows)
    ensures Checks(rows, vlans) && !Repeats(vlans)
  {
  }

  // One OGM keeps a copy in sync, and asks for nothing when it announces the version held
  // or brings the diff to the next one.
  lemma OgmKeepsSync(c: Copy, tv: Tvlv, w: nat, asked: bool, c': Copy, tables: seq<Table>, rv: nat)
    requires InSync(c, tables, rv) && Real(Ogm(tv, w, asked), tables) && Near(rv, Ogm(tv, w, asked))
    requires Taken(c, Ogm(tv, w, asked), c')
    ensures InSync(c', tables, NextVersion(rv, Ogm(tv, w, asked)))
    ensures w == rv + 1 && tv.changes != [] ==> !asked
    ensures w == rv && c.known ==> !asked
  {
    DescribedChecks(tables[w], tv.vlans);
    DiffIsNext(c, tv, w, tables, rv);
    hide Checks, TtLocal.Describes, Repeats, ApplyAll, TakesDiff, TtLocal.Genuine;
  }

  // Within a turn of the version byte, only the next version looks like it.
  lemma DiffIsNext(c: Copy, tv: Tvlv, w: nat, tables: seq<Table>, rv: nat)
    requires InSync(c, tables, rv) && w < |tables| && TtLocal.Genuine(tv, tables[..w + 1])
    requires -255 < w - rv < 256
    ensures TakesDiff(c, tv.ttvn) <==> w == rv + 1
    ensures tv.ttvn == c.ttvn <==> w == rv
    ensures TtLocal.Describes(tv.vlans, tables[w])
    ensures w == rv + 1 && tv.changes != [] ==> ApplyAll(c.rows, tv.changes, false) == tables[w]
    ensures tv.ttvn == w % 256
  {
    hide TtLocal.Describes, ApplyAll;
  }

  // Whatever the receiver held, a full-table answer puts it in sync.
  lemma AnswerSyncs(c: Copy, entries: seq<Change>, v: nat, c': Copy, tables: seq<Table>)
    requires Real(Answer(entries, v), tables) && Taken(c, Answer(entries, v), c')
    ensures InSync(c', tables, v)
  {
  }

  function VersionAfter(rv: nat, es: seq<Event>): nat {
    if es == [] then rv else NextVersion(VersionAfter(rv, es[..|es| - 1]), es[|es| - 1])
  }

  // cs: the copy before, between and after the events.
  ghost predicate Run(cs: seq<Copy>, es: seq<Event>, tables: seq<Table>, rv: nat) {
    |cs| == |es| + 1 && forall k :: 0 <= k < |es| ==>
      Real(es[k], tables) && Near(VersionAfter(rv, es[..k]), es[k]) && Taken(cs[k], es[k], cs[k + 1])
  }

  // Event k announces the version held, or brings the diff to the next one.
  ghost predicate Followed(cs: seq<Copy>, es: seq<Event>, rv: nat, k: nat)
    requires k < |es| && |cs| == |es| + 1
  {
    var v := VersionAfter(rv, es[..k]);
    es[k].Ogm? && ((es[k].version == v && cs[k].known) || (es[k].version == v + 1 && es[k].tv.changes != []))
  }

  // Once in sync, always in sync: with the version the events add up to, and with no request
  // sent but for versions that were skipped.
  lemma {:induction false} StaysInSync(cs: seq<Copy>, es: seq<Event>, tables: seq<Table>, rv: nat)
    requires Run(cs, es, tables, rv) && InSync(cs[0], tables, rv)
    ensures InSync(cs[|es|], tables, VersionAfter(rv, es))
    ensures forall k :: 0 <= k < |es| && Followed(cs, es, rv, k) ==> !es[k].asked
  {
    if es != [] {
      var n := |es| - 1;
      RunPrefix(cs, es, tables, rv);
      hide Run, Real, Taken, InSync, Near;
      StaysInSync(cs[..n + 1], es[..n], tables, rv);
      forall k | 0 <= k < n && Followed(cs, es, rv, k)
        ensures !es[k].asked
      {
        assert es[..n][..k] == es[..k];
        assert Followed(cs[..n + 1], es[..n], rv, k);
      }
      var v := VersionAfter(rv, es[..n]);
      match es[n]
      case Ogm(tv, w, asked) => OgmKeepsSync(cs[n], tv, w, asked, cs[n + 1], tables, v);
      case Answer(entries, w) => AnswerSyncs(cs[n], entries, w, cs[n + 1], tables);
    }
  }

  lemma RunPrefix(cs: seq<Copy>, es: seq<Event>, tables: seq<Table>, rv: nat)
    requires es != [] && Run(cs, es, tables, rv)
    ensures
      var n := |es| - 1;
      |cs| == n + 2 && Run(cs[..n + 1], es[..n], tables, rv) && cs[..n + 1][n] == cs[n] && cs[..n + 1][0] == cs[0]
      && Real(es[n], tables) && Near(VersionAfter(rv, es[..n]), es[n]) && Taken(cs[n], es[n], cs[n + 1])
  {
    var n := |es| - 1;
    hide Real, Near, Taken, VersionAfter;
    forall k | 0 <= k < n
      ensures es[..n][..k] == es[..k]
    {
    }
  }
}
