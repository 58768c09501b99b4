// A node's own clients and what it announces of them (main/bat/bat_tt.c, own table):
// entries waiting for the next commit, the queue of change events, and the TT container
// of each own OGM.
module TtLocal {
  import opened Words
  import opened TtClients
  import Counting
  import Crc32c

  const LOCAL_MAX: int := 4
  const CHANGES_MAX: int := 8
  const RESENDS: int := 3
  const HLEN: int := 4
  const VLAN_LEN: int := 8
  const CHANGE_LEN: int := 12
  const LAST_MAX: int := 256

  datatype State = New | On | Del

  datatype Local = Local(client: Client, flags: bv8, state: State)

  datatype Vlan = Vlan(crc: bv32, vid: bv16)

  // A TT container of an OGM: version, one check per VLAN, the changes that led to it.
  datatype Tvlv = Tvlv(ttvn: u8, vlans: seq<Vlan>, changes: seq<Change>)

  datatype Option<T> = None | Some(value: T)

  function WithDel(f: bv8): bv8 {
    f | 0x01
  }

  function LocalFlags(f: bv8): bv8 {
    f & 0x30
  }

  lemma FlagFacts(f: bv8)
    requires LocalFlags(f) == f
    ensures !IsDel(f) && IsDel(WithDel(f)) && SyncFlags(f) == f
  {
  }

  lemma LocalFlagsTwice(f: bv8)
    ensures LocalFlags(LocalFlags(f)) == LocalFlags(f)
  {
  }

  predicate UnicastOk(m: Mac) {
    m != ZERO_MAC && m[0] & 1 == 0
  }

  // Neither no address nor a group's: the lowest bit of the first byte is clear.
  lemma UnicastIs(m: Mac)
    ensures UnicastOk(m) <==> m != [0, 0, 0, 0, 0, 0] && (m[0] >> 1) << 1 == m[0]
  {
  }

  // ---- the announced table and the one of the next commit ------------------------------

  // Entry i of the list is client c, committed or (pending) kept by the next commit.
  predicate InTable(l: Local, pending: bool) {
    if pending then l.state != Del else l.state != New
  }

  function TableOf(ls: seq<Local>, pending: bool): Table {
    if ls == [] then map[]
    else
      var t := TableOf(ls[..|ls| - 1], pending);
      var l := ls[|ls| - 1];
      if InTable(l, pending) then t[l.client := l.flags] else t
  }

  ghost predicate DistinctClients(ls: seq<Local>) {
    forall i, j :: 0 <= i < j < |ls| ==> ls[i].client != ls[j].client
  }

  lemma {:induction false} TableHas(ls: seq<Local>, pending: bool, i: nat)
    requires DistinctClients(ls) && i < |ls|
    ensures ls[i].client in TableOf(ls, pending) <==> InTable(ls[i], pending)
    ensures InTable(ls[i], pending) ==> TableOf(ls, pending)[ls[i].client] == ls[i].flags
  {
    var n := |ls| - 1;
    if i < n {
      TableHas(ls[..n], pending, i);
    } else {
      TableOnlyListed(ls[..n], pending, ls[i].client);
    }
  }

  lemma {:induction false} TableOnlyListed(ls: seq<Local>, pending: bool, c: Client)
    requires forall i :: 0 <= i < |ls| ==> ls[i].client != c
    ensures c !in TableOf(ls, pending)
  {
    if ls != [] {
      TableOnlyListed(ls[..|ls| - 1], pending, c);
    }
  }

  // ---- events and entries -------------------------------------------------------------

  // The event that announces what became of an entry since the last commit.
  function EventOf(l: Local): Change {
    Change(l.client, if l.state == Del then WithDel(l.flags) else l.flags)
  }

  ghost predicate DistinctEvents(ch: seq<Change>) {
    forall i, j :: 0 <= i < j < |ch| ==> ch[i].client != ch[j].client
  }

  // An entry is well formed, and waits for the event that announces it.
  ghost predicate Waits(l: Local, ch: seq<Change>) {
    LocalFlags(l.flags) == l.flags && l.client.mac != ZERO_MAC && (l.state != On ==> EventOf(l) in ch)
  }

  ghost predicate Owned(e: Change, ls: seq<Local>) {
    exists l :: l in ls && l.state != On && l.client == e.client
  }

  // Waiting events and NEW or DEL entries correspond one to one.
  ghost predicate Paired(ls: seq<Local>, ch: seq<Change>) {
    && |ls| <= LOCAL_MAX && DistinctClients(ls) && DistinctEvents(ch)
    && (forall l :: l in ls ==> Waits(l, ch))
    && (forall e :: e in ch ==> Owned(e, ls))
  }

  lemma PairedEvent(ls: seq<Local>, ch: seq<Change>, k: nat) returns (i: nat)
    requires Paired(ls, ch) && k < |ch|
    ensures i < |ls| && ls[i].state != On && ch[k] == EventOf(ls[i])
  {
    hide WithDel, LocalFlags;
    assert Owned(ch[k], ls);
    var l :| l in ls && l.state != On && l.client == ch[k].client;
    assert Waits(l, ch);
    var j :| 0 <= j < |ch| && ch[j] == EventOf(l);
    i :| 0 <= i < |ls| && ls[i] == l;
  }

  // So the queue never holds more events than there are entries.
  lemma {:induction false} QueueNeverFull(ls: seq<Local>, ch: seq<Change>)
    requires Paired(ls, ch)
    ensures |ch| <= |ls| <= LOCAL_MAX < CHANGES_MAX
  {
    var at := EventSlots(ls, ch, |ch|);
    Counting.Pigeonhole(at, |ls|);
  }

  lemma {:induction false} EventSlots(ls: seq<Local>, ch: seq<Change>, n: nat) returns (at: seq<nat>)
    requires Paired(ls, ch) && n <= |ch|
    ensures |at| == n && Counting.Distinct(at)
    ensures forall k :: 0 <= k < n ==> at[k] < |ls| && ls[at[k]].client == ch[k].client
  {
    if n == 0 {
      at := [];
    } else {
      at := EventSlots(ls, ch, n - 1);
      var i := PairedEvent(ls, ch, n - 1);
      at := at + [i];
    }
  }

  // A list of events about different clients, seen client by client.
  lemma {:induction false} AppliedAt(t: Table, ch: seq<Change>, k: nat)
    requires DistinctEvents(ch) && k < |ch| && ch[k].client.mac != ZERO_MAC
    ensures
      var t' := ApplyAll(t, ch, false);
      var e := ch[k];
      if IsDel(e.flags) then e.client !in t' else e.client in t' && t'[e.client] == SyncFlags(e.flags)
  {
    var n := |ch| - 1;
    if k < n {
      AppliedAt(t, ch[..n], k);
    }
  }

  lemma {:induction false} AppliedElsewhere(t: Table, ch: seq<Change>, c: Client)
    requires forall k :: 0 <= k < |ch| ==> ch[k].client != c
    ensures c in ApplyAll(t, ch, false) <==> c in t
    ensures c in t ==> ApplyAll(t, ch, false)[c] == t[c]
  {
    if ch != [] {
      AppliedElsewhere(t, ch[..|ch| - 1], c);
    }
  }

  // The waiting events are the difference between the announced table and the next one.
  lemma EventsAreTheDiff(ls: seq<Local>, ch: seq<Change>)
    requires Paired(ls, ch)
    ensures ApplyAll(TableOf(ls, false), ch, false) == TableOf(ls, true)
  {
    var t', u := ApplyAll(TableOf(ls, false), ch, false), TableOf(ls, true);
    forall c
      ensures c in t' <==> c in u
      ensures c in t' ==> t'[c] == u[c]
    {
      DiffAt(ls, ch, c);
    }
  }

  lemma NoEvent(ls: seq<Local>, ch: seq<Change>, c: Client)
    requires Paired(ls, ch)
    requires forall i :: 0 <= i < |ls| && ls[i].client == c ==> ls[i].state == On
    ensures forall k :: 0 <= k < |ch| ==> ch[k].client != c
  {
    forall k | 0 <= k < |ch|
      ensures ch[k].client != c
    {
      assert Owned(ch[k], ls);
    }
  }

  lemma DiffAt(ls: seq<Local>, ch: seq<Change>, c: Client)
    requires Paired(ls, ch)
    ensures
      var t', u := ApplyAll(TableOf(ls, false), ch, false), TableOf(ls, true);
      (c in t' <==> c in u) && (c in t' ==> t'[c] == u[c])
  {
    hide WithDel, LocalFlags, TableOf, ApplyAll, IsDel, SyncFlags;
    if i :| 0 <= i < |ls| && ls[i].client == c {
      TableHas(ls, true, i);
      TableHas(ls, false, i);
      assert Waits(ls[i], ch);
      FlagFacts(ls[i].flags);
      if ls[i].state == On {
        NoEvent(ls, ch, c);
        AppliedElsewhere(TableOf(ls, false), ch, c);
      } else {
        var k :| 0 <= k < |ch| && ch[k] == EventOf(ls[i]);
        AppliedAt(TableOf(ls, false), ch, k);
      }
    } else {
      TableOnlyListed(ls, true, c);
      TableOnlyListed(ls, false, c);
      NoEvent(ls, ch, c);
      AppliedElsewhere(TableOf(ls, false), ch, c);
    }
  }

  // ---- adding and deleting entries ------------------------------------------------------

  function Without<T>(s: seq<T>, i: nat): seq<T>
    requires i < |s|
  {
    s[..i] + s[i + 1..]
  }

  lemma {:induction false} TableSet(ls: seq<Local>, i: nat, l: Local, pending: bool)
    requires DistinctClients(ls) && i < |ls| && l.client == ls[i].client
    ensures TableOf(ls[i := l], pending) ==
      if InTable(l, pending) then TableOf(ls, pending)[l.client := l.flags] else TableOf(ls, pending) - {l.client}
  {
    var n := |ls| - 1;
    if i == n {
      assert ls[i := l][..n] == ls[..n];
      TableOnlyListed(ls[..n], pending, l.client);
    } else {
      assert ls[i := l][..n] == ls[..n][i := l];
      TableSet(ls[..n], i, l, pending);
    }
  }

  lemma {:induction false} TableWithout(ls: seq<Local>, i: nat, pending: bool)
    requires DistinctClients(ls) && i < |ls|
    ensures TableOf(Without(ls, i), pending) == TableOf(ls, pending) - {ls[i].client}
  {
    var n := |ls| - 1;
    if i == n {
      assert Without(ls, i) == ls[..n];
      TableOnlyListed(ls[..n], pending, ls[i].client);
    } else {
      assert Without(ls, i)[..n - 1] == Without(ls[..n], i);
      TableWithout(ls[..n], i, pending);
    }
  }

  // The queue after an event: an opposite one of the same client cancels both.
  ghost predicate Queued(ch: seq<Change>, e: Change, ok: bool, ch': seq<Change>) {
    if exists k :: Opposite(ch, e, k) then ok && exists k :: Opposite(ch, e, k) && ch' == Without(ch, k)
    else ok == (|ch| < CHANGES_MAX) && ch' == if ok then ch + [e] else ch
  }

  ghost predicate Opposite(ch: seq<Change>, e: Change, k: int) {
    0 <= k < |ch| && ch[k].client == e.client && IsDel(ch[k].flags) != IsDel(e.flags)
  }

  lemma EventIndex(ls: seq<Local>, ch: seq<Change>, i: nat) returns (k: nat)
    requires Paired(ls, ch) && i < |ls| && ls[i].state != On
    ensures k < |ch| && ch[k] == EventOf(ls[i])
    ensures forall j :: 0 <= j < |ch| && ch[j].client == ls[i].client ==> j == k
    ensures IsDel(ch[k].flags) <==> ls[i].state == Del
  {
    assert Waits(ls[i], ch);
    k :| 0 <= k < |ch| && ch[k] == EventOf(ls[i]);
    FlagFacts(ls[i].flags);
    hide IsDel, WithDel, LocalFlags;
  }

  // The opposite event meets the one that waits for entry i, and takes it away.
  lemma Cancels(ls: seq<Local>, ch: seq<Change>, i: nat, flags: bv8, ok: bool, ch': seq<Change>) returns (k: nat)
    requires Paired(ls, ch) && i < |ls| && ls[i].state != On
    requires Queued(ch, Change(ls[i].client, flags), ok, ch') && (IsDel(flags) <==> ls[i].state == New)
    ensures ok && k < |ch| && ch' == Without(ch, k) && ch[k].client == ls[i].client
  {
    k := EventIndex(ls, ch, i);
    var e := Change(ls[i].client, flags);
    assert Opposite(ch, e, k);
    hide IsDel, WithDel, LocalFlags, EventOf, Paired;
  }

  // Waiting for deletion and added again: as announced before.
  lemma Restored(ls: seq<Local>, ch: seq<Change>, i: nat, k: nat)
    requires Paired(ls, ch) && i < |ls| && k < |ch| && ch[k].client == ls[i].client
    ensures Paired(ls[i := ls[i].(state := On)], Without(ch, k))
  {
    var ls', ch' := ls[i := ls[i].(state := On)], Without(ch, k);
    WithoutOne(ch, k);
    hide LocalFlags, WithDel;
    forall l | l in ls'
      ensures Waits(l, ch')
    {
      var j :| 0 <= j < |ls| && ls'[j] == l;
      assert Waits(ls[j], ch);
    }
    forall e | e in ch'
      ensures Owned(e, ls')
    {
      OwnerStays(ls, ch, i, k, e);
      var j :| 0 <= j < |ls| && j != i && ls[j] != ls[i] && ls[j].state != On && ls[j].client == e.client;
      assert ls'[j] == ls[j];
    }
  }

  // An event other than the k-th has an owner other than entry i.
  lemma OwnerStays(ls: seq<Local>, ch: seq<Change>, i: nat, k: nat, e: Change)
    requires Paired(ls, ch) && i < |ls| && k < |ch| && ch[k].client == ls[i].client
    requires e in ch && e != ch[k]
    ensures exists j :: 0 <= j < |ls| && j != i && ls[j] != ls[i] && ls[j].state != On && ls[j].client == e.client
  {
    hide LocalFlags, WithDel, Waits;
    assert Owned(e, ls);
    var l :| l in ls && l.state != On && l.client == e.client;
    var j :| 0 <= j < |ls| && ls[j] == l;
    var m :| 0 <= m < |ch| && ch[m] == e;
  }

  // Deleted before it was ever announced: entry and event both go.
  lemma Dropped(ls: seq<Local>, ch: seq<Change>, i: nat, k: nat)
    requires Paired(ls, ch) && i < |ls| && k < |ch| && ch[k].client == ls[i].client
    ensures Paired(Without(ls, i), Without(ch, k))
  {
    var ls', ch' := Without(ls, i), Without(ch, k);
    WithoutOne(ch, k);
    WithoutOne(ls, i);
    hide LocalFlags, WithDel;
    forall l | l in ls'
      ensures Waits(l, ch')
    {
      assert Waits(l, ch);
      var j :| 0 <= j < |ls| && ls[j] == l;
    }
    forall e | e in ch'
      ensures Owned(e, ls')
    {
      OwnerStays(ls, ch, i, k, e);
      var j :| 0 <= j < |ls| && j != i && ls[j] != ls[i] && ls[j].state != On && ls[j].client == e.client;
      assert ls[j] in ls';
    }
  }

  // A new entry, its event queued.
  lemma Entered(ls: seq<Local>, ch: seq<Change>, l: Local)
    requires Paired(ls, ch) && |ls| < LOCAL_MAX && l.state == New
    requires LocalFlags(l.flags) == l.flags && l.client.mac != ZERO_MAC
    requires forall i :: 0 <= i < |ls| ==> ls[i].client != l.client
    ensures Paired(ls + [l], ch + [EventOf(l)])
    ensures forall k :: 0 <= k < |ch| ==> ch[k].client != l.client
  {
    NoEvent(ls, ch, l.client);
    hide LocalFlags, WithDel;
    var ls', ch' := ls + [l], ch + [EventOf(l)];
    assert ls'[|ls|] == l && ch'[|ch|] == EventOf(l);
    forall x | x in ls'
      ensures Waits(x, ch')
    {
      assert x in ls ==> Waits(x, ch);
    }
    forall e | e in ch'
      ensures Owned(e, ls')
    {
      assert e in ch ==> Owned(e, ls);
    }
  }

  // An announced entry deleted: it waits with its event.
  lemma Leaving(ls: seq<Local>, ch: seq<Change>, i: nat)
    requires Paired(ls, ch) && i < |ls| && ls[i].state == On
    ensures Paired(ls[i := ls[i].(state := Del)], ch + [EventOf(ls[i].(state := Del))])
    ensures forall k :: 0 <= k < |ch| ==> ch[k].client != ls[i].client
  {
    NoEvent(ls, ch, ls[i].client);
    hide LocalFlags, WithDel;
    var l := ls[i].(state := Del);
    var ls', ch' := ls[i := l], ch + [EventOf(l)];
    assert ls'[i] == l && ch'[|ch|] == EventOf(l);
    forall x | x in ls'
      ensures Waits(x, ch')
    {
      var j :| 0 <= j < |ls| && ls'[j] == x;
      assert Waits(ls[j], ch);
    }
    forall e | e in ch'
      ensures Owned(e, ls')
    {
      if e in ch {
        assert Owned(e, ls);
        var x :| x in ls && x.state != On && x.client == e.client;
        var j :| 0 <= j < |ls| && ls[j] == x;
        assert ls'[j] == x;
      }
    }
  }

  lemma WithoutOne<T(!new)>(s: seq<T>, i: nat)
    requires i < |s| && forall j, k :: 0 <= j < k < |s| ==> s[j] != s[k]
    ensures |Without(s, i)| == |s| - 1
    ensures forall x :: x in Without(s, i) <==> x in s && x != s[i]
    ensures forall j :: 0 <= j < |s| - 1 ==> Without(s, i)[j] == if j < i then s[j] else s[j + 1]
  {
    forall x
      ensures x in Without(s, i) <==> x in s && x != s[i]
    {
      if x in s && x != s[i] {
        var j :| 0 <= j < |s| && s[j] == x;
        assert Without(s, i)[if j < i then j else j - 1] == x;
      }
    }
  }

  // ---- VLAN records -----------------------------------------------------------------

  ghost predicate Describes(vlans: seq<Vlan>, t: Table) {
    && (forall i, j :: 0 <= i < j < |vlans| ==> vlans[i].vid != vlans[j].vid)
    && (forall i :: 0 <= i < |vlans| ==> vlans[i].vid in Vids(t) && vlans[i].crc == VlanCrc(t, vlans[i].vid))
    && (forall v :: v in Vids(t) ==> exists i :: 0 <= i < |vlans| && vlans[i].vid == v)
  }

  // One record a VLAN.
  lemma VlanCount(vlans: seq<Vlan>, t: Table)
    requires Describes(vlans, t)
    ensures |vlans| == |Vids(t)|
  {
    var vids := seq(|vlans|, i requires 0 <= i < |vlans| => vlans[i].vid);
    hide VlanCrc, Vids;
    DistinctCount(vids);
    assert forall v :: v in Vids(t) <==> v in vids by {
      forall v | v in Vids(t)
        ensures v in vids
      {
        var i :| 0 <= i < |vlans| && vlans[i].vid == v;
        assert vids[i] == v;
      }
    }
    assert (set v | v in vids) == Vids(t);
  }

  lemma {:induction false} DistinctCount(vids: seq<bv16>)
    requires forall i, j :: 0 <= i < j < |vids| ==> vids[i] != vids[j]
    ensures |set v | v in vids| == |vids|
  {
    if vids != [] {
      var n := |vids| - 1;
      DistinctCount(vids[..n]);
      assert (set v | v in vids) == (set v | v in vids[..n]) + {vids[n]};
    }
  }

  // What a container says of the announced tables so far: the newest version, its checks,
  // and either no changes or those from the version before.
  ghost predicate Genuine(tv: Tvlv, tables: seq<Table>) {
    && tables != []
    && var v := |tables| - 1;
    && tv.ttvn == v % 256 && Describes(tv.vlans, tables[v])
    && (tv.changes != [] ==> v > 0 && ApplyAll(tables[v - 1], tv.changes, false) == tables[v])
  }

  function Length(vlans: nat, changes: nat): nat {
    HLEN + 4 + VLAN_LEN * vlans + CHANGE_LEN * changes
  }

  ghost predicate Small(tv: Tvlv) {
    |tv.vlans| <= LOCAL_MAX && |tv.changes| <= LOCAL_MAX
  }

  class Own {
    var local: seq<Local>
    var changes: seq<Change>
    var ttvn: u8
    var resend: nat
    var last: Option<Tvlv>
    ghost var tables: seq<Table>    // the announced table of every version so far

    ghost predicate Valid()
      reads this
    {
      && Paired(local, changes)
      && tables != [] && ttvn == (|tables| - 1) % 256
      && tables[|tables| - 1] == TableOf(local, false)
      && (last.Some? ==> Small(last.value))
      && (resend > 0 && last.Some? ==> Genuine(last.value, tables))
    }

    // The table the next commit announces.
    ghost function Pending(): Table
      reads this
    {
      TableOf(local, true)
    }

    constructor (softMac: Mac)
      requires UnicastOk(softMac)
      ensures Valid() && tables == [map[]] && Pending() == map[Client(softMac, 0) := 0]
    {
      var l := Local(Client(softMac, 0), 0, New);
      local, changes, ttvn, resend, last := [l], [Change(Client(softMac, 0), 0)], 0, 0, None;
      tables := [map[]];
      new;
      Entered([], [], l);
      assert [] + [l] == [l] && [] + [EventOf(l)] == [EventOf(l)] && [l][..0] == [];
      assert TableOf([], true) == map[] && TableOf([], false) == map[];
    }

    // An opposite waiting event cancels both; false when the queue is full.
    method QueueEvent(e: Change) returns (ok: bool)
      modifies `changes
      ensures Queued(old(changes), e, ok, changes)
    {
      for i := 0 to |changes|
        invariant changes == old(changes)
        invariant forall j :: 0 <= j < i ==> !Opposite(changes, e, j)
      {
        hide IsDel;
        if changes[i].client == e.client && IsDel(changes[i].flags) != IsDel(e.flags) {
          assert Opposite(changes, e, i);
          changes := Without(changes, i);
          return true;
        }
      }
      if |changes| >= CHANGES_MAX {
        return false;
      }
      changes := changes + [e];
      return true;
    }

    method LocalFind(client: Client) returns (i: int)
      ensures -1 <= i < |local|
      ensures i != -1 ==> local[i].client == client
      ensures i == -1 ==> forall j :: 0 <= j < |local| ==> local[j].client != client
    {
      for k := 0 to |local|
        invariant forall j :: 0 <= j < k ==> local[j].client != client
      {
        if local[k].client == client {
          return k;
        }
      }
      return -1;
    }

    // True (0) exactly when the client is, or can be, an entry with these flags: a full
    // queue never refuses it.
    method LocalAdd(client: Client, f: bv8) returns (ok: bool)
      requires Valid()
      modifies `local, `changes
      ensures Valid() && tables == old(tables)
      ensures ok <==> MayAdd(old(local), client, LocalFlags(f))
      ensures if ok then Pending() == old(Pending())[client := LocalFlags(f)]
              else local == old(local) && changes == old(changes)
    {
      var flags := LocalFlags(f);
      LocalFlagsTwice(f);
      if !UnicastOk(client.mac) {
        return false;
      }
      var i := LocalFind(client);
      ghost var ls, ch := local, changes;
      UnicastNotZero(client.mac);
      hide LocalFlags, UnicastOk, Paired, TableOf, WithDel, ApplyAll, MayAdd, Queued, DistinctClients;
      if i != -1 {
        OneEntry(ls, ch, i, flags);
        if local[i].flags != flags {
          return false;
        }
        if local[i].state == Del {
          ok := QueueEvent(Change(client, flags));
          AddBack(ls, ch, i, ok, changes);
          if !ok {
            return;
          }
          local := local[i := local[i].(state := On)];
        } else {
          AddKept(ls, ch, i);
        }
        return true;
      }
      NotListed(ls, client, flags);
      if |local| >= LOCAL_MAX {
        return false;
      }
      ok := QueueEvent(Change(client, flags));
      AddNew(ls, ch, client, flags, ok, changes);
      if !ok {
        return;
      }
      local := local + [Local(client, flags, New)];
    }

    // True (0) exactly when the client is an entry.
    method LocalDel(client: Client) returns (ok: bool)
      requires Valid()
      modifies `local, `changes
      ensures Valid() && tables == old(tables)
      ensures ok <==> exists l :: l in old(local) && l.client == client
      ensures if ok then Pending() == old(Pending()) - {client}
              else local == old(local) && changes == old(changes)
    {
      var i := LocalFind(client);
      ghost var ls, ch := local, changes;
      hide LocalFlags, Paired, TableOf, WithDel, ApplyAll;
      if i == -1 {
        return false;
      }
      assert local[i] in local;
      if local[i].state == Del {
        DelTwice(ls, ch, i);
        return true;
      }
      ok := QueueEvent(Change(client, WithDel(local[i].flags)));
      DelQueued(ls, ch, i, ok, changes);
      if !ok {
        return;
      }
      if local[i].state == New {
        local := Without(local, i);
      } else {
        local := local[i := local[i].(state := Del)];
      }
    }

    // VLANs holding an announced entry, each with its check, in first-seen order.
    method PutVlans() returns (vlans: seq<Vlan>)
      requires DistinctClients(local) && |local| <= LOCAL_MAX
      ensures Describes(vlans, TableOf(local, false)) && |vlans| <= LOCAL_MAX
    {
      var vids: seq<bv16> := [];
      for i := 0 to |local|
        invariant |vids| <= i && VidsOf(vids, TableOf(local[..i], false))
      {
        assert local[..i + 1][..i] == local[..i];
        VidsStep(vids, local, i);
        if local[i].state != New && local[i].client.vid !in vids {
          vids := vids + [local[i].client.vid];
        }
      }
      assert local[..|local|] == local;
      vlans := [];
      for k := 0 to |vids|
        invariant |vlans| == k
        invariant forall j :: 0 <= j < k ==> vlans[j] == Vlan(VlanCrc(TableOf(local, false), vids[j]), vids[j])
      {
        var crc := LocalCrc(vids[k]);
        vlans := vlans + [Vlan(crc, vids[k])];
      }
      DescribedBy(vlans, vids, TableOf(local, false));
    }

    method LocalCrc(vid: bv16) returns (crc: bv32)
      requires DistinctClients(local)
      ensures crc == VlanCrc(TableOf(local, false), vid)
    {
      crc := 0;
      EmptyVlan(vid);
      for i := 0 to |local|
        invariant crc == VlanCrc(TableOf(local[..i], false), vid)
      {
        assert local[..i + 1][..i] == local[..i];
        VlanCrcStep(local, i, vid);
        if local[i].state != New && local[i].client.vid == vid {
          var check := BatCrc32cTt(local[i].client.vid, local[i].flags, local[i].client.mac);
          crc := crc ^ check;
        }
      }
      assert local[..|local|] == local;
    }

    // A full-table answer lists the announced entries: taken into an empty table they are it.
    method Answer() returns (entries: seq<Change>)
      requires Valid()
      ensures ApplyAll(map[], entries, true) == tables[|tables| - 1]
    {
      entries := [];
      for i := 0 to |local|
        invariant entries == AnswerOf(local[..i])
      {
        assert local[..i + 1][..i] == local[..i];
        if local[i].state != New {
          entries := entries + [Change(local[i].client, local[i].flags)];
        }
      }
      assert local[..|local|] == local;
      assert forall l :: l in local ==> Waits(l, changes);
      AnswerIsTable(local);
    }

    // Deleted entries go, the others are announced from now on.
    method Commit()
      modifies `local, `ttvn
      ensures local == Kept(old(local)) && ttvn == (old(ttvn) + 1) % 256
    {
      ghost var ls := local;
      ghost var n := 0;
      var i := 0;
      assert Kept(ls[..0]) == [];
      while i < |local|
        invariant n <= |ls| && i <= |local| && local[..i] == Kept(ls[..n]) && local[i..] == ls[n..]
        invariant ttvn == old(ttvn)
        decreases |ls| - n
      {
        KeptStep(ls, n);
        hide Kept;
        assert local[i] == local[i..][0] == ls[n..][0];
        assert local[i + 1..] == local[i..][1..] == ls[n..][1..];
        n := n + 1;
        if local[i].state == Del {
          ghost var was := local;
          local := Without(local, i);
          assert local[..i] == was[..i] && local[i..] == was[i + 1..];
          continue;
        }
        ghost var was := local;
        local := local[i := local[i].(state := On)];
        assert local[..i + 1] == was[..i] + [local[i]] && local[i + 1..] == was[i + 1..];
        i := i + 1;
      }
      assert local[..i] == local && ls[..n] == ls;
      ttvn := (ttvn + 1) % 256;
    }

    // The checks of the table announced fit in max bytes.
    ghost predicate Checks(max: nat)
      reads this
    {
      tables != [] && Length(|Vids(tables[|tables| - 1])|, 0) <= max
    }

    // Nothing waits: the container of the last commit again, or only the checks.
    method Repeat(max: nat) returns (out: Option<Tvlv>)
      requires Valid() && changes == []
      modifies `resend, `last
      ensures Valid() && (out.Some? ==> Genuine(out.value, tables))
      ensures max >= Length(LOCAL_MAX, LOCAL_MAX) ==> out.Some?
      ensures old(resend) > 0 && old(last).Some? ==> resend == old(resend) - 1 && (out.Some? ==> out == old(last))
      ensures !(old(resend) > 0 && old(last).Some?) && out.Some? ==> out.value.changes == [] && out.value.ttvn == ttvn
      // Left out exactly if it is too long; the checks alone are kept for later if they fit there.
      ensures if old(resend) > 0 && old(last).Some? then
          && last == old(last)
          && (out.Some? <==> Length(|last.value.vlans|, |last.value.changes|) <= max)
        else
          && resend == old(resend) && (out.Some? <==> Checks(max))
          && last == if Checks(max) && Checks(256) then out else old(last)
    {
      if resend > 0 && last.Some? {
        resend := resend - 1;
        return if Length(|last.value.vlans|, |last.value.changes|) > max then None else last;
      }
      var vlans := PutVlans();
      VlanCount(vlans, TableOf(local, false));
      if Length(|vlans|, 0) > max {
        return None;
      }
      out := Some(Tvlv(ttvn, vlans, []));
      if Length(|vlans|, 0) <= LAST_MAX {
        last := out;
      }
    }

    // The container of the version just committed, with the diff to it if that fits.
    method Contain(ch: seq<Change>, max: nat) returns (out: Option<Tvlv>)
      requires DistinctClients(local) && |local| <= LOCAL_MAX && 0 < |ch| <= LOCAL_MAX && |tables| > 1
      requires ttvn == (|tables| - 1) % 256 && tables[|tables| - 1] == TableOf(local, false)
      requires ApplyAll(tables[|tables| - 2], ch, false) == tables[|tables| - 1]
      modifies `last
      ensures last == out && (out.Some? <==> Checks(max))
      ensures out.Some? ==> Small(out.value) && Genuine(out.value, tables)
      ensures out.Some? ==>
        var length := Length(|Vids(tables[|tables| - 1])|, |ch|);
        out.value.changes == if length <= max && length <= 256 then ch else []
      ensures max >= Length(LOCAL_MAX, LOCAL_MAX) ==> out.Some? && out.value.changes == ch
    {
      hide TableOf, Describes, ApplyAll, DistinctClients, Genuine, Vids;
      var vlans := PutVlans();
      VlanCount(vlans, TableOf(local, false));
      if Length(|vlans|, 0) > max {
        last := None;
        return None;
      }
      var kept := if Length(|vlans|, |ch|) > (if max < LAST_MAX then max else LAST_MAX) then [] else ch;
      CommitGenuine(tables[..|tables| - 1], TableOf(local, false), ttvn, vlans, kept);
      assert tables[..|tables| - 1] + [TableOf(local, false)] == tables;
      out := Some(Tvlv(ttvn, vlans, kept));
      last := out;
    }

    // Something waits: a new version, and the diff to it.
    method Announce(max: nat) returns (out: Option<Tvlv>)
      requires Valid() && changes != []
      modifies this
      ensures Valid() && changes == [] && Pending() == old(Pending()) && resend == RESENDS
      ensures tables == old(tables) + [old(Pending())]
      ensures out.Some? ==> Genuine(out.value, tables)
      ensures max >= Length(LOCAL_MAX, LOCAL_MAX) ==> out.Some? && out.value.changes == old(changes)
      ensures (out.Some? <==> Checks(max)) && last == out
      ensures out.Some? ==>
        var length := Length(|Vids(tables[|tables| - 1])|, |old(changes)|);
        out.value.changes == if length <= max && length <= 256 then old(changes) else []
    {
      CommitFacts(local, changes, tables);
      ByteNext(|tables|);
      ghost var ls := local;
      var ch := changes;
      hide Paired, TableOf, Kept, ApplyAll, DistinctClients, Genuine, Checks, Vids;
      Commit();
      tables := tables + [TableOf(ls, true)];
      resend := RESENDS;
      changes := [];
      out := Contain(ch, max);
    }

    // The TT container of an own OGM of at most max bytes; None when it does not fit.
    method OgmBuild(max: nat) returns (out: Option<Tvlv>)
      requires Valid()
      modifies this
      ensures Valid() && changes == [] && Pending() == old(Pending())
      // A new version exactly when something waits; it announces what was to come.
      ensures tables == if old(changes) == [] then old(tables) else old(tables) + [old(Pending())]
      ensures out.Some? ==> Genuine(out.value, tables)
      // In an OGM of the engine nothing is ever left out for want of room.
      ensures max >= Length(LOCAL_MAX, LOCAL_MAX) ==>
        out.Some? && (old(changes) != [] ==> out.value.changes == old(changes))
      // Re-sent unchanged after a commit.
      ensures old(changes) == [] && old(resend) > 0 && old(last).Some? ==>
        resend == old(resend) - 1 && (out.Some? ==> out == old(last))
      ensures old(changes) == [] && !(old(resend) > 0 && old(last).Some?) && out.Some? ==> out.value.changes == []
      ensures old(changes) != [] ==> resend == RESENDS
      // Left out exactly if the checks do not fit; the diff only if it does not fit with them.
      ensures old(changes) != [] ==>
        && (out.Some? <==> Checks(max)) && last == out
        && (out.Some? ==>
              var length := Length(|Vids(tables[|tables| - 1])|, |old(changes)|);
              out.value.changes == if length <= max && length <= 256 then old(changes) else [])
      ensures old(changes) == [] && !(old(resend) > 0 && old(last).Some?) ==>
        (out.Some? <==> Checks(max)) && last == if Checks(max) && Checks(256) then out else old(last)
      ensures old(changes) == [] && old(resend) > 0 && old(last).Some? ==>
        last == old(last) && (out.Some? <==> Length(|last.value.vlans|, |last.value.changes|) <= max)
    {
      if changes == [] {
        out := Repeat(max);
        return;
      }
      out := Announce(max);
    }
  }

  // The entries of a full-table answer.
  function AnswerOf(ls: seq<Local>): seq<Change> {
    if ls == [] then []
    else
      var l := ls[|ls| - 1];
      AnswerOf(ls[..|ls| - 1]) + if InTable(l, false) then [Change(l.client, l.flags)] else []
  }

  lemma {:induction false} AnswerIsTable(ls: seq<Local>)
    requires forall l :: l in ls ==> LocalFlags(l.flags) == l.flags && l.client.mac != ZERO_MAC
    ensures ApplyAll(map[], AnswerOf(ls), true) == TableOf(ls, false)
  {
    if ls != [] {
      var n := |ls| - 1;
      AnswerIsTable(ls[..n]);
      if InTable(ls[n], false) {
        assert ls[n] in ls;
        PlainApplied(TableOf(ls[..n], false), ls[n].client, ls[n].flags);
        hide ApplyOne, LocalFlags;
        assert AnswerOf(ls)[..|AnswerOf(ls)| - 1] == AnswerOf(ls[..n]);
      } else {
        assert AnswerOf(ls) == AnswerOf(ls[..n]);
      }
    }
  }

  lemma PlainApplied(t: Table, c: Client, f: bv8)
    requires LocalFlags(f) == f && c.mac != ZERO_MAC
    ensures ApplyOne(t, Change(c, f), true) == t[c := f]
  {
    PlainFlags(f);
    hide IsDel, IsRoam, SyncFlags, LocalFlags;
  }

  lemma PlainFlags(f: bv8)
    requires LocalFlags(f) == f
    ensures !IsDel(f) && !IsRoam(f) && SyncFlags(f) == f
  {
  }

  lemma ByteNext(n: nat)
    requires n > 0
    ensures ((n - 1) % 256 + 1) % 256 == n % 256
  {
  }

  lemma CommitGenuine(was: seq<Table>, t: Table, ttvn: u8, vlans: seq<Vlan>, ch: seq<Change>)
    requires was != [] && ttvn == |was| % 256 && Describes(vlans, t)
    requires ch == [] || ApplyAll(was[|was| - 1], ch, false) == t
    ensures Genuine(Tvlv(ttvn, vlans, ch), was + [t])
  {
  }

  lemma KeptStep(ls: seq<Local>, n: nat)
    requires n < |ls|
    ensures Kept(ls[..n + 1]) == Kept(ls[..n]) + if ls[n].state == Del then [] else [ls[n].(state := On)]
  {
    assert ls[..n + 1][..n] == ls[..n];
  }

  // What a commit makes of the entries, and what its events say.
  lemma CommitFacts(ls: seq<Local>, ch: seq<Change>, tables: seq<Table>)
    requires Paired(ls, ch) && tables != [] && tables[|tables| - 1] == TableOf(ls, false)
    ensures Paired(Kept(ls), []) && DistinctClients(Kept(ls)) && |Kept(ls)| <= LOCAL_MAX && |ch| <= LOCAL_MAX
    ensures TableOf(Kept(ls), false) == TableOf(Kept(ls), true) == TableOf(ls, true)
    ensures ApplyAll(tables[|tables| - 1], ch, false) == TableOf(ls, true)
  {
    KeptPaired(ls, ch);
    EventsAreTheDiff(ls, ch);
    QueueNeverFull(ls, ch);
  }

  // The list after a commit.
  function Kept(ls: seq<Local>): seq<Local> {
    if ls == [] then []
    else
      var l := ls[|ls| - 1];
      Kept(ls[..|ls| - 1]) + if l.state == Del then [] else [l.(state := On)]
  }

  lemma {:induction false} KeptTable(ls: seq<Local>, pending: bool)
    ensures TableOf(Kept(ls), pending) == TableOf(ls, true)
  {
    if ls != [] {
      var n := |ls| - 1;
      KeptTable(ls[..n], pending);
      if ls[n].state == Del {
        assert Kept(ls) == Kept(ls[..n]);
      } else {
        assert Kept(ls)[..|Kept(ls)| - 1] == Kept(ls[..n]);
      }
    }
  }

  lemma {:induction false} KeptFrom(ls: seq<Local>)
    ensures |Kept(ls)| <= |ls|
    ensures forall l :: l in Kept(ls) ==>
              l.state == On && exists m :: m in ls && m.client == l.client && m.flags == l.flags
  {
    if ls != [] {
      var n := |ls| - 1;
      KeptFrom(ls[..n]);
      assert ls[n] in ls;
    }
  }

  lemma {:induction false} KeptDistinct(ls: seq<Local>)
    requires DistinctClients(ls)
    ensures DistinctClients(Kept(ls))
  {
    if ls != [] {
      var n := |ls| - 1;
      KeptDistinct(ls[..n]);
      KeptFrom(ls[..n]);
      forall i | 0 <= i < |Kept(ls[..n])|
        ensures Kept(ls[..n])[i].client != ls[n].client
      {
        assert Kept(ls[..n])[i] in Kept(ls[..n]);
      }
    }
  }

  lemma KeptPaired(ls: seq<Local>, ch: seq<Change>)
    requires Paired(ls, ch)
    ensures Paired(Kept(ls), [])
    ensures TableOf(Kept(ls), false) == TableOf(Kept(ls), true) == TableOf(ls, true)
  {
    KeptTable(ls, false);
    KeptTable(ls, true);
    KeptFrom(ls);
    KeptDistinct(ls);
    forall l | l in Kept(ls)
      ensures Waits(l, [])
    {
      var m :| m in ls && m.client == l.client && m.flags == l.flags;
      assert Waits(m, ch);
    }
  }

  // vids lists the VLANs of t, each once.
  ghost predicate VidsOf(vids: seq<bv16>, t: Table) {
    (forall i, j :: 0 <= i < j < |vids| ==> vids[i] != vids[j]) && (forall v :: v in vids <==> v in Vids(t))
  }

  lemma VidsStep(vids: seq<bv16>, ls: seq<Local>, i: nat)
    requires i < |ls| && DistinctClients(ls) && VidsOf(vids, TableOf(ls[..i], false))
    ensures
      var v := ls[i].client.vid;
      VidsOf(if ls[i].state != New && v !in vids then vids + [v] else vids, TableOf(ls[..i + 1], false))
  {
    assert ls[..i + 1][..i] == ls[..i];
    TableOnlyListed(ls[..i], false, ls[i].client);
    var t, t' := TableOf(ls[..i], false), TableOf(ls[..i + 1], false);
    forall v
      ensures v in Vids(t') <==> v in Vids(t) || (ls[i].state != New && v == ls[i].client.vid)
    {
      if v in Vids(t) {
        var c :| c in t && c.vid == v;
        assert c in t';
      }
      if ls[i].state != New && v == ls[i].client.vid {
        assert ls[i].client in t';
      }
    }
  }

  lemma DescribedBy(vlans: seq<Vlan>, vids: seq<bv16>, t: Table)
    requires VidsOf(vids, t) && |vlans| == |vids|
    requires forall j :: 0 <= j < |vids| ==> vlans[j] == Vlan(VlanCrc(t, vids[j]), vids[j])
    ensures Describes(vlans, t)
  {
    forall v | v in Vids(t)
      ensures exists i :: 0 <= i < |vlans| && vlans[i].vid == v
    {
      var i :| 0 <= i < |vids| && vids[i] == v;
      assert vlans[i].vid == v;
    }
    assert forall j :: 0 <= j < |vids| ==> vids[j] in vids;
  }

  lemma EmptyVlan(vid: bv16)
    ensures VlanCrc(TableOf([], false), vid) == 0
  {
    assert InVlan(TableOf([], false), vid) == {};
  }

  lemma VlanCrcStep(ls: seq<Local>, i: nat, vid: bv16)
    requires i < |ls| && DistinctClients(ls)
    ensures VlanCrc(TableOf(ls[..i + 1], false), vid) ==
      if ls[i].state != New && ls[i].client.vid == vid
      then Crc32c.Xor(VlanCrc(TableOf(ls[..i], false), vid), ClientCrc(ls[i].client, ls[i].flags))
      else VlanCrc(TableOf(ls[..i], false), vid)
  {
    assert ls[..i + 1][..i] == ls[..i];
    TableOnlyListed(ls[..i], false, ls[i].client);
    var t, t' := TableOf(ls[..i], false), TableOf(ls[..i + 1], false);
    hide Crc32c.Xor, ClientCrc, TableOf;
    if ls[i].state != New && ls[i].client.vid == vid {
      var e := Entry(ls[i].client, ls[i].flags);
      assert InVlan(t', vid) == InVlan(t, vid) + {e};
      XorInsert(InVlan(t, vid), e);
    } else {
      assert InVlan(t', vid) == InVlan(t, vid);
    }
  }

  ghost predicate MayAdd(ls: seq<Local>, client: Client, flags: bv8) {
    && UnicastOk(client.mac)
    && (forall l :: l in ls && l.client == client ==> l.flags == flags)
    && ((exists l :: l in ls && l.client == client) || |ls| < LOCAL_MAX)
  }

  lemma UnicastNotZero(m: Mac)
    requires UnicastOk(m)
    ensures m != ZERO_MAC
  {
  }

  lemma OneEntry(ls: seq<Local>, ch: seq<Change>, i: nat, flags: bv8)
    requires Paired(ls, ch) && i < |ls| && UnicastOk(ls[i].client.mac)
    ensures MayAdd(ls, ls[i].client, flags) <==> ls[i].flags == flags
  {
    assert ls[i] in ls;
  }

  lemma NotListed(ls: seq<Local>, client: Client, flags: bv8)
    requires UnicastOk(client.mac) && forall i :: 0 <= i < |ls| ==> ls[i].client != client
    ensures MayAdd(ls, client, flags) <==> |ls| < LOCAL_MAX
  {
  }

  // One step of the list and the queue: the announced table stays, the next one is t.
  ghost predicate Moved(ls: seq<Local>, ls': seq<Local>, ch': seq<Change>, t: Table) {
    Paired(ls', ch') && TableOf(ls', false) == TableOf(ls, false) && TableOf(ls', true) == t
  }

  lemma AddBack(ls: seq<Local>, ch: seq<Change>, i: nat, ok: bool, ch': seq<Change>)
    requires Paired(ls, ch) && i < |ls| && ls[i].state == Del
    requires Queued(ch, Change(ls[i].client, ls[i].flags), ok, ch')
    ensures ok && Moved(ls, ls[i := ls[i].(state := On)], ch', TableOf(ls, true)[ls[i].client := ls[i].flags])
  {
    assert Waits(ls[i], ch);
    FlagFacts(ls[i].flags);
    var k := Cancels(ls, ch, i, ls[i].flags, ok, ch');
    Restored(ls, ch, i, k);
    TableSet(ls, i, ls[i].(state := On), false);
    TableSet(ls, i, ls[i].(state := On), true);
    TableHas(ls, false, i);
  }

  lemma AddKept(ls: seq<Local>, ch: seq<Change>, i: nat)
    requires Paired(ls, ch) && i < |ls| && ls[i].state != Del
    ensures Moved(ls, ls, ch, TableOf(ls, true)[ls[i].client := ls[i].flags])
  {
    TableHas(ls, true, i);
  }

  lemma AddNew(ls: seq<Local>, ch: seq<Change>, client: Client, flags: bv8, ok: bool, ch': seq<Change>)
    requires Paired(ls, ch) && |ls| < LOCAL_MAX && forall i :: 0 <= i < |ls| ==> ls[i].client != client
    requires LocalFlags(flags) == flags && client.mac != ZERO_MAC
    requires Queued(ch, Change(client, flags), ok, ch')
    ensures ok && Moved(ls, ls + [Local(client, flags, New)], ch', TableOf(ls, true)[client := flags])
  {
    var l := Local(client, flags, New);
    QueueNeverFull(ls, ch);
    Entered(ls, ch, l);
    QueuedFresh(ch, Change(client, flags), ok, ch');
    TableEntered(ls, l);
    hide Paired, LocalFlags, WithDel, Queued, TableOf;
  }

  lemma QueuedFresh(ch: seq<Change>, e: Change, ok: bool, ch': seq<Change>)
    requires Queued(ch, e, ok, ch') && |ch| < CHANGES_MAX
    requires forall k :: 0 <= k < |ch| ==> ch[k].client != e.client
    ensures ok && ch' == ch + [e]
  {
  }

  lemma TableEntered(ls: seq<Local>, l: Local)
    requires l.state == New
    ensures TableOf(ls + [l], false) == TableOf(ls, false)
    ensures TableOf(ls + [l], true) == TableOf(ls, true)[l.client := l.flags]
  {
    assert (ls + [l])[..|ls|] == ls;
  }

  lemma DelTwice(ls: seq<Local>, ch: seq<Change>, i: nat)
    requires Paired(ls, ch) && i < |ls| && ls[i].state == Del
    ensures Moved(ls, ls, ch, TableOf(ls, true) - {ls[i].client})
  {
    TableHas(ls, true, i);
  }

  lemma DelQueued(ls: seq<Local>, ch: seq<Change>, i: nat, ok: bool, ch': seq<Change>)
    requires Paired(ls, ch) && i < |ls| && ls[i].state != Del
    requires Queued(ch, Change(ls[i].client, WithDel(ls[i].flags)), ok, ch')
    ensures ok
    ensures Moved(ls, if ls[i].state == New then Without(ls, i) else ls[i := ls[i].(state := Del)], ch',
                  TableOf(ls, true) - {ls[i].client})
  {
    hide *;
    if ls[i].state == New {
      DelUnannounced(ls, ch, i, ok, ch');
    } else {
      DelAnnounced(ls, ch, i, ok, ch');
    }
  }

  lemma DelUnannounced(ls: seq<Local>, ch: seq<Change>, i: nat, ok: bool, ch': seq<Change>)
    requires Paired(ls, ch) && i < |ls| && ls[i].state == New
    requires Queued(ch, Change(ls[i].client, WithDel(ls[i].flags)), ok, ch')
    ensures ok && Moved(ls, Without(ls, i), ch', TableOf(ls, true) - {ls[i].client})
  {
    assert Waits(ls[i], ch);
    FlagFacts(ls[i].flags);
    assert DistinctClients(ls);
    hide Waits, WithDel, LocalFlags, Paired, Queued, TableOf;
    var k := Cancels(ls, ch, i, WithDel(ls[i].flags), ok, ch');
    Dropped(ls, ch, i, k);
    TableHas(ls, false, i);
    TableWithout(ls, i, false);
    TableWithout(ls, i, true);
  }

  lemma DelAnnounced(ls: seq<Local>, ch: seq<Change>, i: nat, ok: bool, ch': seq<Change>)
    requires Paired(ls, ch) && i < |ls| && ls[i].state == On
    requires Queued(ch, Change(ls[i].client, WithDel(ls[i].flags)), ok, ch')
    ensures ok && Moved(ls, ls[i := ls[i].(state := Del)], ch', TableOf(ls, true) - {ls[i].client})
  {
    QueueNeverFull(ls, ch);
    Leaving(ls, ch, i);
    hide WithDel, LocalFlags, Waits, Owned;
    TableSet(ls, i, ls[i].(state := Del), false);
    TableSet(ls, i, ls[i].(state := Del), true);
    TableHas(ls, false, i);
    hide TableOf, Paired;
  }
}
