// Listings in pages (main/bat/bat_render.c, bat_tt.c's two listings, main/at.c's loop): each
// call renders whole entries from a cursor and leaves the cursor of the first that is missing.
module Paging {
  import opened Words

  const RESERVE: int := 32 // room kept for the truncation marker
  const DONE: u32 := 0xFFFF_FFFF
  const TRUNC: u32 := 0xFFFF_FFFE
  const LINE: u32 := 0xFFFF_FFF0 // the port's: its own line is all that is left

  datatype Option<T> = None | Some(value: T)

  // An entry is written piece by piece; at is its cursor.
  datatype Entry = Entry(at: nat, parts: seq<string>)

  function Join(parts: seq<string>): string {
    if parts == [] then "" else parts[0] + Join(parts[1..])
  }

  function Text(es: seq<Entry>): string {
    if es == [] then "" else Join(es[0].parts) + Text(es[1..])
  }

  // Cursors rise and stay below the reserved ones.
  ghost predicate Ordered(es: seq<Entry>) {
    && (forall i, j :: 0 <= i < j < |es| ==> es[i].at < es[j].at)
    && (forall i :: 0 <= i < |es| ==> es[i].at < LINE && es[i].parts != [])
  }

  // How many of es, whole and in order, end below limit when pos is written already.
  function Kept(limit: nat, pos: nat, es: seq<Entry>): (k: nat)
    ensures k <= |es|
    decreases |es|
  {
    if es == [] || pos + |Join(es[0].parts)| >= limit then 0
    else 1 + Kept(limit, pos + |Join(es[0].parts)|, es[1..])
  }

  lemma Assoc<T>(a: seq<T>, b: seq<T>, c: seq<T>)
    ensures (a + b) + c == a + (b + c)
  {
  }

  lemma {:induction false} JoinAppend(a: seq<string>, b: seq<string>)
    ensures Join(a + b) == Join(a) + Join(b)
  {
    if a == [] {
      assert a + b == b;
    } else {
      JoinAppend(a[1..], b);
      assert (a + b)[1..] == a[1..] + b;
      Assoc(a[0], Join(a[1..]), Join(b));
    }
  }

  lemma {:induction false} TextAppend(a: seq<Entry>, b: seq<Entry>)
    ensures Text(a + b) == Text(a) + Text(b)
  {
    if a == [] {
      assert a + b == b;
    } else {
      TextAppend(a[1..], b);
      assert (a + b)[1..] == a[1..] + b;
      hide Join;
      Assoc(Join(a[0].parts), Text(a[1..]), Text(b));
    }
  }

  // Whatever comes after an entry that did not fit changes nothing.
  lemma {:induction false} KeptStays(limit: nat, pos: nat, a: seq<Entry>, b: seq<Entry>)
    requires Kept(limit, pos, a) < |a|
    ensures Kept(limit, pos, a + b) == Kept(limit, pos, a)
    decreases |a|
  {
    if a != [] && pos + |Join(a[0].parts)| < limit {
      KeptStays(limit, pos + |Join(a[0].parts)|, a[1..], b);
      assert (a + b)[1..] == a[1..] + b;
    }
  }

  // After entries that all fit, the next one does if it ends below limit.
  lemma {:induction false} KeptNext(limit: nat, pos: nat, a: seq<Entry>, e: Entry)
    requires Kept(limit, pos, a) == |a|
    ensures Kept(limit, pos, a + [e]) == if pos + |Text(a)| + |Join(e.parts)| < limit then |a| + 1 else |a|
    decreases |a|
  {
    if a == [] {
      assert a + [e] == [e] && [e][1..] == [];
    } else {
      KeptNext(limit, pos + |Join(a[0].parts)|, a[1..], e);
      assert (a + [e])[1..] == a[1..] + [e];
    }
  }

  // ---- the writer -------------------------------------------------------------------------

  // What the writer holds after it was offered es in order.
  ghost predicate Wrote(limit: nat, es: seq<Entry>, text: string, next: nat, stop: bool, any: bool) {
    var k := Kept(limit, 0, es);
    && text == Text(es[..k])
    && (stop <==> k < |es|)
    && (any <==> k > 0)
    && (stop ==> next == if k > 0 then es[k].at else TRUNC)
  }

  lemma WroteMore(limit: nat, a: seq<Entry>, b: seq<Entry>, text: string, next: nat, any: bool)
    requires Wrote(limit, a, text, next, true, any)
    ensures Wrote(limit, a + b, text, next, true, any)
  {
    KeptStays(limit, 0, a, b);
    assert (a + b)[..Kept(limit, 0, a)] == a[..Kept(limit, 0, a)];
  }

  lemma WroteNext(limit: nat, a: seq<Entry>, e: Entry, text: string, next: nat, any: bool)
    requires Wrote(limit, a, text, next, false, any)
    ensures |text| + |Join(e.parts)| < limit ==> Wrote(limit, a + [e], text + Join(e.parts), next, false, true)
    ensures |text| + |Join(e.parts)| >= limit ==> Wrote(limit, a + [e], text, if any then e.at else TRUNC, true, any)
  {
    KeptNext(limit, 0, a, e);
    TextAppend(a, [e]);
    assert [e][1..] == [];
    assert a[..|a|] == a && (a + [e])[..|a|] == a && (a + [e])[..|a| + 1] == a + [e];
  }

  class Writer {
    const limit: nat
    // What is kept of the buffer.
    var text: string
    var mark: nat
    var at: nat
    var next: nat
    var stop: bool
    var any: bool

    constructor (len: nat)
      ensures limit == Limit(len) && Wrote(limit, [], text, next, stop, any)
    {
      limit := if len > RESERVE then len - RESERVE else 0;
      text, mark, at, next, stop, any := "", 0, 0, 0, false, false;
    }

    // bat_wr_begin
    method Begin(cursor: nat) returns (ok: bool)
      modifies this
      ensures ok == !stop && stop == old(stop) && text == old(text) && next == old(next) && any == old(any)
      ensures ok ==> mark == |text| && at == cursor
    {
      if stop {
        return false;
      }
      mark, at := |text|, cursor;
      return true;
    }

    // bat_wr_commit of a piece
    method Commit(piece: string)
      requires !stop ==> mark <= |text|
      modifies `text, `next, `stop
      ensures old(stop) ==> stop && text == old(text) && next == old(next)
      ensures !old(stop) && |old(text)| + |piece| < limit ==> !stop && text == old(text) + piece && next == old(next)
      ensures !old(stop) && |old(text)| + |piece| >= limit ==>
                stop && text == old(text)[..mark] && next == if any then at else TRUNC
    {
      if stop {
        return;
      }
      if |text| + |piece| >= limit {
        stop := true;
        next := if any then at else TRUNC;
        text := text[..mark];
      } else {
        text := text + piece;
      }
    }

    // bat_wr_end
    method End()
      modifies `any
      ensures any == (old(any) || !stop)
    {
      any := any || !stop;
    }

    // One entry, begin to end; false once stopped.
    method Put(e: Entry, ghost es: seq<Entry>) returns (ok: bool)
      requires Wrote(limit, es, text, next, stop, any) && e.parts != []
      modifies this
      ensures ok == !old(stop)
      ensures ok ==> Wrote(limit, es + [e], text, next, stop, any)
      ensures !ok ==> stop && Wrote(limit, es, text, next, stop, any)
    {
      ok := Begin(e.at);
      if !ok {
        return;
      }
      ghost var before, n0 := text, next;
      WroteNext(limit, es, e, text, next, any);
      hide Wrote, Join;
      JoinNone();
      for i := 0 to |e.parts|
        invariant mark == |before| && at == e.at
        invariant stop ==> text == before && next == (if any then at else TRUNC)
        invariant stop ==> |before| + |Join(e.parts)| >= limit
        invariant !stop ==> text == before + Join(e.parts[..i]) && next == n0 && (i > 0 ==> |text| < limit)
        modifies `text, `next, `stop
      {
        JoinPiece(e.parts, i);
        Commit(e.parts[i]);
      }
      assert e.parts[..|e.parts|] == e.parts;
      End();
    }
  }

  lemma JoinNone()
    ensures Join([]) == ""
  {
  }

  lemma JoinPiece(parts: seq<string>, i: nat)
    requires i < |parts|
    ensures Join(parts[..i + 1]) == Join(parts[..i]) + parts[i]
    ensures |Join(parts[..i])| + |parts[i]| <= |Join(parts)|
    ensures parts[..0] == []
  {
    JoinAppend(parts[..i], [parts[i]]);
    assert parts[..i + 1] == parts[..i] + [parts[i]];
    assert [parts[i]][1..] == [];
    JoinAppend(parts[..i + 1], parts[i + 1..]);
    assert parts == parts[..i + 1] + parts[i + 1..];
  }

  function Limit(len: nat): nat {
    if len > RESERVE then len - RESERVE else 0
  }

  // ---- the listings -------------------------------------------------------------------------

  type Shown = seq<Option<seq<string>>>

  predicate Printable(summary: seq<string>, shown: Shown) {
    summary != [] && |shown| < LINE && forall x :: 0 <= x < |shown| ==> shown[x] != Some([])
  }

  function Slot(shown: Shown, x: nat): seq<Entry>
    requires x < |shown|
  {
    if shown[x].Some? then [Entry(1 + x, shown[x].value)] else []
  }

  // The slots from a up to b that are shown.
  function Range(shown: Shown, a: nat, b: nat): seq<Entry>
    requires b <= |shown|
  {
    if b <= a then [] else Range(shown, a, b - 1) + Slot(shown, b - 1)
  }

  // A summary line, then one entry a slot.
  function List(summary: seq<string>, shown: Shown): seq<Entry> {
    [Entry(0, summary)] + Range(shown, 0, |shown|)
  }

  // The part of a listing at or past a cursor.
  function From(es: seq<Entry>, cursor: nat): seq<Entry> {
    if es == [] then []
    else (if es[0].at >= cursor then [es[0]] else []) + From(es[1..], cursor)
  }

  lemma {:induction false} FromAppend(a: seq<Entry>, b: seq<Entry>, cursor: nat)
    ensures From(a + b, cursor) == From(a, cursor) + From(b, cursor)
  {
    if a == [] {
      assert a + b == b;
    } else {
      FromAppend(a[1..], b, cursor);
      assert (a + b)[1..] == a[1..] + b && (a + b)[0] == a[0];
      Assoc(if a[0].at >= cursor then [a[0]] else [], From(a[1..], cursor), From(b, cursor));
    }
  }

  // What a loop from cursor on has to print.
  function Rest(summary: seq<string>, shown: Shown, cursor: nat): seq<Entry> {
    (if cursor == 0 then [Entry(0, summary)] else []) + Range(shown, if cursor > 0 then cursor - 1 else 0, |shown|)
  }

  lemma {:induction false} FromRange(shown: Shown, b: nat, cursor: nat)
    requires b <= |shown|
    ensures From(Range(shown, 0, b), cursor) == Range(shown, if cursor > 0 then cursor - 1 else 0, b)
  {
    if b > 0 {
      FromRange(shown, b - 1, cursor);
      FromAppend(Range(shown, 0, b - 1), Slot(shown, b - 1), cursor);
      if shown[b - 1].Some? {
        assert Slot(shown, b - 1)[1..] == [];
      }
    }
  }

  lemma FromList(summary: seq<string>, shown: Shown, cursor: nat)
    ensures From(List(summary, shown), cursor) == Rest(summary, shown, cursor)
  {
    assert List(summary, shown)[1..] == Range(shown, 0, |shown|);
    FromRange(shown, |shown|, cursor);
  }

  lemma {:induction false} RangeOrdered(shown: Shown, b: nat)
    requires b <= |shown| < LINE && forall x :: 0 <= x < |shown| ==> shown[x] != Some([])
    ensures Ordered(Range(shown, 0, b)) && forall e :: e in Range(shown, 0, b) ==> 0 < e.at <= b
  {
    if b > 0 {
      RangeOrdered(shown, b - 1);
      var es := Range(shown, 0, b - 1);
      assert forall i :: 0 <= i < |es| ==> es[i] in es;
    }
  }

  lemma ListOrdered(summary: seq<string>, shown: Shown)
    requires Printable(summary, shown)
    ensures Ordered(List(summary, shown))
  {
    RangeOrdered(shown, |shown|);
    var es := Range(shown, 0, |shown|);
    assert forall i :: 0 <= i < |es| ==> es[i] in es;
  }

  lemma {:induction false} RangeSplit(shown: Shown, a: nat, b: nat, c: nat)
    requires b <= c <= |shown|
    ensures Range(shown, a, c) == Range(shown, a, b) + Range(shown, if a < b then b else a, c)
  {
    if c > b {
      RangeSplit(shown, a, b, c - 1);
    }
  }

  lemma {:induction false} RangeBare(shown: Shown, a: nat, b: nat, c: nat)
    requires b <= c <= |shown| && forall x :: b <= x < c ==> shown[x].None?
    ensures Range(shown, a, c) == Range(shown, a, b)
  {
    if c > b {
      RangeBare(shown, a, b, c - 1);
    }
  }

  lemma RangeNone(shown: Shown, a: nat, b: nat)
    requires b <= |shown| && b <= a
    ensures Range(shown, a, b) == []
  {
  }

  // The summary line of a listing from its start.
  method PutSummary(w: Writer, summary: seq<string>, cursor: nat)
    requires Wrote(w.limit, [], w.text, w.next, w.stop, w.any) && summary != []
    modifies w
    ensures Wrote(w.limit, if cursor == 0 then [Entry(0, summary)] else [], w.text, w.next, w.stop, w.any)
  {
    if cursor == 0 {
      var ok := w.Put(Entry(0, summary), []);
      assert [] + [Entry(0, summary)] == [Entry(0, summary)];
    }
  }

  // One shown slot, after those of es; false once stopped.
  method PutSlot(w: Writer, shown: Shown, a: nat, x: nat, ghost pre: seq<Entry>) returns (ok: bool)
    requires a <= x < |shown| && shown[x] != Some([])
    requires Wrote(w.limit, pre + Range(shown, a, x), w.text, w.next, w.stop, w.any)
    modifies w
    ensures ok ==> Wrote(w.limit, pre + Range(shown, a, x + 1), w.text, w.next, w.stop, w.any)
    ensures !ok ==> Wrote(w.limit, pre + Range(shown, a, |shown|), w.text, w.next, w.stop, w.any)
  {
    ghost var es := pre + Range(shown, a, x);
    hide Wrote;
    RangeOn(shown, a, x, pre);
    hide Range;
    if shown[x].None? {
      assert es + [] == es;
      return true;
    }
    ok := w.Put(Entry(1 + x, shown[x].value), es);
    if !ok {
      WroteMore(w.limit, es, Range(shown, x, |shown|), w.text, w.next, w.any);
    }
  }

  lemma RangeOn(shown: Shown, a: nat, x: nat, pre: seq<Entry>)
    requires a <= x < |shown|
    ensures
      pre + Range(shown, a, x + 1) ==
        pre + Range(shown, a, x) + if shown[x].Some? then [Entry(1 + x, shown[x].value)] else []
    ensures pre + Range(shown, a, |shown|) == pre + Range(shown, a, x) + Range(shown, x, |shown|)
  {
    RangeSplit(shown, a, x, |shown|);
  }

  // The listings with one entry a slot.
  method RenderSlots(w: Writer, summary: seq<string>, shown: Shown, cursor: nat)
    requires Wrote(w.limit, [], w.text, w.next, w.stop, w.any) && Printable(summary, shown)
    modifies w
    ensures Wrote(w.limit, Rest(summary, shown, cursor), w.text, w.next, w.stop, w.any)
  {
    PutSummary(w, summary, cursor);
    ghost var pre := if cursor == 0 then [Entry(0, summary)] else [];
    var a := if cursor > 0 then cursor - 1 else 0;
    hide Wrote;
    assert pre + [] == pre;
    RangeNone(shown, a, if a < |shown| then a else |shown|);
    assert Rest(summary, shown, cursor) == pre + Range(shown, a, |shown|);
    hide Range, Rest;
    if a >= |shown| {
      return;
    }
    var x: nat, ok := a, true;
    while ok && x < |shown|
      invariant a <= x <= |shown|
      invariant Wrote(w.limit, pre + Range(shown, a, if ok then x else |shown|), w.text, w.next, w.stop, w.any)
    {
      ok := PutSlot(w, shown, a, x, pre);
      x := x + 1;
    }
  }

  // ---- the translation table's listing ---------------------------------------------------------

  const ROWS: int := 256

  // Per originator its CRC lines, then its rows, each by row; originators that are not listed
  // show nothing.
  function Flat(listed: seq<bool>, cells: Shown): Shown
    requires |cells| == |listed| * 2 * ROWS
  {
    seq(|cells|, x requires 0 <= x < |cells| => if listed[x / (2 * ROWS)] then cells[x] else None)
  }

  // The first place of originator oi.
  function First(oi: nat): nat {
    oi * 2 * ROWS
  }

  lemma FirstUpTo(oi: nat, n: nat)
    requires oi <= n
    ensures First(oi) <= First(n)
  {
  }

  lemma Place(n: nat, oi: nat, ph: nat, i: nat)
    requires oi < n && ph < 2 && i < ROWS
    ensures (oi * 2 + ph) * ROWS + i < n * 2 * ROWS && ((oi * 2 + ph) * ROWS + i) / (2 * ROWS) == oi
  {
  }

  lemma SkipOne(listed: seq<bool>, cells: Shown, a: nat, oi: nat)
    requires |cells| == |listed| * 2 * ROWS && oi < |listed| && !listed[oi]
    ensures Range(Flat(listed, cells), a, First(oi + 1)) == Range(Flat(listed, cells), a, First(oi))
  {
    var shown := Flat(listed, cells);
    forall x | oi * 2 * ROWS <= x < (oi + 1) * 2 * ROWS
      ensures shown[x].None?
    {
      assert x / (2 * ROWS) == oi;
    }
    RangeBare(shown, a, oi * 2 * ROWS, (oi + 1) * 2 * ROWS);
  }

  // Where the walk starts, nothing of the rows is offered yet.
  lemma StartsAt(summary: seq<string>, listed: seq<bool>, cells: Shown, cursor: nat, pre: seq<Entry>, at: nat, oi: nat)
    requires |cells| == |listed| * 2 * ROWS && Printable(summary, Flat(listed, cells))
    requires pre == if cursor == 0 then [Entry(0, summary)] else []
    requires at == (if cursor > 0 then cursor - 1 else 0) && oi == at / (2 * ROWS)
    ensures
      var shown := Flat(listed, cells);
      && summary != [] && |shown| == First(|listed|) && (forall x :: 0 <= x < |shown| ==> shown[x] != Some([]))
      && pre + Range(shown, at, if oi < |listed| then First(oi) else |shown|) == pre
      && Rest(summary, shown, cursor) == pre + Range(shown, at, |shown|)
  {
    RangeNone(Flat(listed, cells), at, if oi < |listed| then First(oi) else |cells|);
  }

  // bat_tt_render_global
  method RenderGlobal(w: Writer, summary: seq<string>, listed: seq<bool>, cells: Shown, cursor: nat)
    requires |cells| == |listed| * 2 * ROWS
    requires Wrote(w.limit, [], w.text, w.next, w.stop, w.any) && Printable(summary, Flat(listed, cells))
    modifies w
    ensures Wrote(w.limit, Rest(summary, Flat(listed, cells), cursor), w.text, w.next, w.stop, w.any)
  {
    ghost var pre := if cursor == 0 then [Entry(0, summary)] else [];
    var shown := Flat(listed, cells);
    var at := if cursor > 0 then cursor - 1 else 0;
    var oi := at / (2 * ROWS);
    StartsAt(summary, listed, cells, cursor, pre, at, oi);
    hide Wrote, Flat, Range, Rest, Printable, First;
    PutSummary(w, summary, cursor);
    if oi < |listed| {
      FirstUpTo(oi, |listed|);
      RenderListed(w, listed, cells, at, oi, pre);
    }
  }

  // The originators from oi on.
  method RenderListed(w: Writer, listed: seq<bool>, cells: Shown, at: nat, oi: nat, ghost pre: seq<Entry>)
    requires |cells| == |listed| * 2 * ROWS && oi <= |listed| && First(oi) <= |Flat(listed, cells)|
    requires forall x :: 0 <= x < |cells| ==> Flat(listed, cells)[x] != Some([])
    requires Wrote(w.limit, pre + Range(Flat(listed, cells), at, First(oi)), w.text, w.next, w.stop, w.any)
    modifies w
    ensures Wrote(w.limit, pre + Range(Flat(listed, cells), at, |cells|), w.text, w.next, w.stop, w.any)
  {
    var shown := Flat(listed, cells);
    var k: nat, ok := oi, true;
    assert |shown| == First(|listed|) == |cells|;
    hide Wrote, Flat, Range, First;
    while ok && k < |listed|
      invariant k <= |listed| && First(k) <= |shown|
      invariant Wrote(w.limit, pre + Range(shown, at, if ok then First(k) else |shown|), w.text, w.next, w.stop, w.any)
    {
      FirstUpTo(k + 1, |listed|);
      if listed[k] {
        ok := RenderOriginator(w, shown, at, k, |listed|, pre);
      } else {
        SkipOne(listed, cells, at, k);
      }
      k := k + 1;
    }
  }

  // Both phases of one originator.
  method RenderOriginator(w: Writer, shown: Shown, at: nat, oi: nat, n: nat, ghost pre: seq<Entry>) returns (ok: bool)
    requires oi < n && |shown| == First(n) && forall x :: 0 <= x < |shown| ==> shown[x] != Some([])
    requires Wrote(w.limit, pre + Range(shown, at, First(oi)), w.text, w.next, w.stop, w.any)
    modifies w
    ensures ok ==> Wrote(w.limit, pre + Range(shown, at, First(oi + 1)), w.text, w.next, w.stop, w.any)
    ensures !ok ==> Wrote(w.limit, pre + Range(shown, at, |shown|), w.text, w.next, w.stop, w.any)
  {
    hide Wrote;
    for ph := 0 to 2
      invariant (oi * 2 + ph) * ROWS <= |shown|
      invariant Wrote(w.limit, pre + Range(shown, at, (oi * 2 + ph) * ROWS), w.text, w.next, w.stop, w.any)
    {
      var base := (oi * 2 + ph) * ROWS;
      var i := if base < at then at - base else 0;
      if i >= ROWS {
        assert Range(shown, at, base) == Range(shown, at, base + ROWS);
      } else {
        while i < ROWS
          invariant i <= ROWS && at <= base + i && base + i <= |shown|
          invariant Wrote(w.limit, pre + Range(shown, at, base + i), w.text, w.next, w.stop, w.any)
        {
          Place(n, oi, ph, i);
          ok := PutSlot(w, shown, at, base + i, pre);
          if !ok {
            return;
          }
          i := i + 1;
        }
      }
    }
    return true;
  }

  // ---- pages --------------------------------------------------------------------------------

  datatype Listing =
    | BySlot(summary: seq<string>, shown: Shown)
    | ByOriginator(summary: seq<string>, listed: seq<bool>, cells: Shown)

  predicate Wellformed(l: Listing) {
    && (l.ByOriginator? ==> |l.cells| == |l.listed| * 2 * ROWS)
    && Printable(l.summary, Slots(l))
  }

  function Entries(l: Listing): seq<Entry>
    requires Wellformed(l)
  {
    List(l.summary, Slots(l))
  }

  datatype Page = Page(text: string, cursor: nat)

  function Marker(tag: string, room: nat): string {
    var line := "+" + tag + ": (truncated)\r\n";
    if |line| < room then line else line[..room]
  }

  // One chunk of es in a buffer of len.
  function PageOf(es: seq<Entry>, cursor: nat, len: nat, tag: string): Page {
    var rest := From(es, cursor);
    var k := Kept(Limit(len), 0, rest);
    if len == 0 || cursor == DONE then Page("", DONE)
    else if k == |rest| then Page(Text(rest), DONE)
    else if k > 0 then Page(Text(rest[..k]), rest[k].at)
    else Page(Marker(tag, len - 1), DONE)
  }

  function Slots(l: Listing): Shown
    requires l.ByOriginator? ==> |l.cells| == |l.listed| * 2 * ROWS
  {
    if l.BySlot? then l.shown else Flat(l.listed, l.cells)
  }

  // The writer after the listing of kind l from a cursor.
  method RenderKind(l: Listing, cursor: nat, len: nat) returns (w: Writer)
    requires Wellformed(l)
    ensures fresh(w) && Wrote(Limit(len), From(Entries(l), cursor), w.text, w.next, w.stop, w.any)
  {
    w := new Writer(len);
    FromList(l.summary, Slots(l), cursor);
    hide Wrote, From, Rest, Printable;
    match l {
      case BySlot(summary, shown) =>
        RenderSlots(w, summary, shown, cursor);
      case ByOriginator(summary, listed, cells) =>
        RenderGlobal(w, summary, listed, cells, cursor);
    }
  }

  lemma WrotePage(es: seq<Entry>, cursor: nat, len: nat, tag: string, text: string, next: nat, stop: bool, any: bool)
    requires Ordered(es) && len > 0 && cursor != DONE
    requires Wrote(Limit(len), From(es, cursor), text, next, stop, any)
    ensures
      PageOf(es, cursor, len, tag) ==
        if stop && next == TRUNC then Page(Marker(tag, len - 1), DONE) else Page(text, if stop then next else DONE)
    ensures stop && next == TRUNC ==> text == ""
  {
    FromKeeps(es, cursor);
    var rest := From(es, cursor);
    hide From, Kept;
    assert rest[..|rest|] == rest;
    assert Kept(Limit(len), 0, rest) == 0 ==> rest[..0] == [];
  }

  // render with a cursor.
  method Render(l: Listing, cursor: nat, len: nat, tag: string) returns (text: string, next: nat)
    requires Wellformed(l)
    ensures Page(text, next) == PageOf(Entries(l), cursor, len, tag)
  {
    if len == 0 || cursor == DONE {
      return "", DONE;
    }
    var w := RenderKind(l, cursor, len);
    ListOrdered(l.summary, Slots(l));
    WrotePage(Entries(l), cursor, len, tag, w.text, w.next, w.stop, w.any);
    hide PageOf, Wrote, List, Marker;
    if w.stop && w.next == TRUNC {
      return Marker(tag, len - 1), DONE;
    }
    return w.text, if w.stop then w.next else DONE;
  }

  lemma {:induction false} FromAll(es: seq<Entry>, cursor: nat)
    requires forall i :: 0 <= i < |es| ==> es[i].at >= cursor
    ensures From(es, cursor) == es
  {
    if es != [] {
      FromAll(es[1..], cursor);
    }
  }

  // In an ordered listing that part is the end from the first entry at or past the cursor.
  lemma {:induction false} FromIsTail(es: seq<Entry>, cursor: nat) returns (j: nat)
    requires Ordered(es)
    ensures j <= |es| && From(es, cursor) == es[j..]
    ensures forall i :: 0 <= i < |es| ==> (es[i].at < cursor <==> i < j)
  {
    if es == [] {
      return 0;
    }
    if es[0].at >= cursor {
      FromAll(es, cursor);
      return 0;
    }
    j := FromIsTail(es[1..], cursor);
    j := j + 1;
    assert forall i :: 0 < i < |es| ==> es[i] == es[1..][i - 1];
    assert es[j..] == es[1..][j - 1..];
  }

  lemma FromKeeps(es: seq<Entry>, cursor: nat)
    requires Ordered(es)
    ensures Ordered(From(es, cursor)) && forall i :: 0 <= i < |From(es, cursor)| ==> From(es, cursor)[i].at >= cursor
    ensures forall e :: e in From(es, cursor) ==> e in es
  {
    var j := FromIsTail(es, cursor);
    hide From;
  }

  // Resuming at an entry still to come leaves exactly what follows it.
  lemma FromResumes(es: seq<Entry>, cursor: nat, k: nat)
    requires Ordered(es) && k < |From(es, cursor)|
    ensures From(es, From(es, cursor)[k].at) == From(es, cursor)[k..]
  {
    var j := FromIsTail(es, cursor);
    var at := es[j + k].at;
    var i := FromIsTail(es, at);
    hide From;
    assert es[j + k].at >= at && (i < |es| ==> es[i].at >= at);
    assert i == j + k;
  }

  // Whatever the state it is rendered from, a page leaves DONE or a cursor further on.
  lemma Advances(es: seq<Entry>, cursor: nat, len: nat, tag: string)
    requires Ordered(es)
    ensures
      var c := PageOf(es, cursor, len, tag).cursor;
      c == DONE || cursor < c < LINE
  {
    FromKeeps(es, cursor);
    var rest := From(es, cursor);
    var k := Kept(Limit(len), 0, rest);
    if 0 < k < |rest| {
      assert rest[0].at < rest[k].at;
    }
  }

  ghost predicate Fits(es: seq<Entry>, len: nat) {
    forall i :: 0 <= i < |es| ==> |Join(es[i].parts)| < Limit(len)
  }

  // A page is what is left up to its cursor, whole entries only.
  lemma PagesJoin(es: seq<Entry>, cursor: nat, len: nat, tag: string)
    requires Ordered(es) && Fits(es, len) && cursor < LINE && len > 0
    ensures
      var p := PageOf(es, cursor, len, tag);
      Text(From(es, cursor)) == p.text + if p.cursor == DONE then "" else Text(From(es, p.cursor))
  {
    FromKeeps(es, cursor);
    var rest := From(es, cursor);
    var k := Kept(Limit(len), 0, rest);
    if rest != [] {
      assert rest[0] in es;
    }
    if 0 < k < |rest| {
      FromResumes(es, cursor, k);
      TextAppend(rest[..k], rest[k..]);
      assert rest == rest[..k] + rest[k..];
    }
  }

  // ---- the port's line and the AT task's loop ---------------------------------------------------

  // bat_port_render_: line, the port's own for the counters' listing, follows the last chunk if
  // it fits there, else comes alone.
  function PortPage(es: seq<Entry>, cursor: nat, len: nat, tag: string, line: Option<string>): Page {
    var p := if cursor == LINE then Page("", DONE) else PageOf(es, cursor, len, tag);
    if line.Some? && p.cursor == DONE && |p.text| < len then
      if |line.value| < len - |p.text| then Page(p.text + line.value, DONE)
      else if p.text != "" then Page(p.text, LINE)
      else p
    else p
  }

  lemma PortAdvances(es: seq<Entry>, cursor: nat, len: nat, tag: string, line: Option<string>)
    requires Ordered(es) && cursor <= LINE
    ensures
      var c := PortPage(es, cursor, len, tag, line).cursor;
      c == DONE || cursor < c <= LINE
  {
    Advances(es, cursor, len, tag);
    hide PageOf;
  }

  lemma {:induction false} KeptFits(limit: nat, pos: nat, es: seq<Entry>)
    ensures Kept(limit, pos, es) <= |es|
    ensures var k := Kept(limit, pos, es); k == 0 || pos + |Text(es[..k])| < limit
    decreases |es|
  {
    var k := Kept(limit, pos, es);
    if k > 0 {
      KeptFits(limit, pos + |Join(es[0].parts)|, es[1..]);
      assert es[..k][1..] == es[1..][..k - 1];
      assert es[..k][0] == es[0];
      assert k == 1 ==> es[..k][1..] == [];
    }
  }

  // A page, the port's line with it, leaves the last byte of the buffer to the terminating zero.
  lemma PageFits(es: seq<Entry>, cursor: nat, len: nat, tag: string, line: Option<string>)
    requires len > 0
    ensures |PageOf(es, cursor, len, tag).text| < len && |PortPage(es, cursor, len, tag, line).text| < len
  {
    var rest := From(es, cursor);
    KeptFits(Limit(len), 0, rest);
    assert rest[..|rest|] == rest;
    assert rest == [] ==> Text(rest) == "";
    hide Text, Kept, From;
  }

  // What is left to print from a cursor, the port's line last.
  function Left(es: seq<Entry>, cursor: nat, line: Option<string>): string {
    Text(if cursor == LINE then [] else From(es, cursor)) + if line.Some? then line.value else ""
  }

  lemma {:induction false} KeptBelow(limit: nat, pos: nat, es: seq<Entry>)
    ensures
      var k := Kept(limit, pos, es);
      k > 0 ==> pos + |Text(es[..k])| < limit
    decreases |es|
  {
    var k := Kept(limit, pos, es);
    if k > 0 {
      KeptBelow(limit, pos + |Join(es[0].parts)|, es[1..]);
      assert es[..k][1..] == es[1..][..k - 1];
    }
  }

  lemma PageBelow(es: seq<Entry>, cursor: nat, len: nat, tag: string)
    requires len > 0
    ensures |PageOf(es, cursor, len, tag).text| < len
  {
    var rest := From(es, cursor);
    KeptBelow(Limit(len), 0, rest);
    assert rest[..|rest|] == rest;
  }

  // A page and what is left after it are what was left before it.
  lemma PortPagesJoin(es: seq<Entry>, cursor: nat, len: nat, tag: string, line: Option<string>)
    requires Ordered(es) && Fits(es, len) && cursor <= LINE
    requires LineFits(line, len)
    ensures
      var p := PortPage(es, cursor, len, tag, line);
      Left(es, cursor, line) == p.text + if p.cursor == DONE then "" else Left(es, p.cursor, line)
  {
    PageBelow(es, cursor, len, tag);
    Advances(es, cursor, len, tag);
    var last := if line.Some? then line.value else "";
    if cursor < LINE {
      PagesJoin(es, cursor, len, tag);
      var p := PageOf(es, cursor, len, tag);
      Assoc(p.text, if p.cursor == DONE then "" else Text(From(es, p.cursor)), last);
    }
    hide PageOf, From, Ordered, Fits;
    assert Text([]) == "";
    hide Text;
  }

  ghost predicate Still(ls: nat -> Listing, lines: nat -> Option<string>) {
    forall n :: ls(n) == ls(0) && lines(n) == lines(0)
  }

  predicate LineFits(line: Option<string>, len: nat) {
    len > 0 && (line.Some? ==> |line.value| < len)
  }

  lemma AllLeft(es: seq<Entry>, line: Option<string>)
    ensures Left(es, 0, line) == Text(es) + if line.Some? then line.value else ""
  {
    FromAll(es, 0);
    hide From, Text;
  }

  lemma StillJoins(ls: nat -> Listing, lines: nat -> Option<string>, n: nat, cursor: nat, len: nat, tag: string,
                   out: string)
    requires Still(ls, lines) && Wellformed(ls(0)) && Wellformed(ls(n)) && cursor <= LINE
    requires Fits(Entries(ls(0)), len) && LineFits(lines(0), len)
    ensures
      var es, p := Entries(ls(0)), PortPage(Entries(ls(n)), cursor, len, tag, lines(n));
      out + Left(es, cursor, lines(0)) == (out + p.text) + if p.cursor == DONE then "" else Left(es, p.cursor, lines(0))
  {
    ListOrdered(ls(0).summary, Slots(ls(0)));
    PortPagesJoin(Entries(ls(0)), cursor, len, tag, lines(0));
    hide Entries, Left, PortPage, Wellformed, Fits;
    var es, p := Entries(ls(0)), PortPage(Entries(ls(n)), cursor, len, tag, lines(n));
    Assoc(out, p.text, if p.cursor == DONE then "" else Left(es, p.cursor, lines(0)));
  }

  // cmd_bat_render, the engine's state free to change between chunks: ls(n) and lines(n) are
  // what it has at the n-th. It ends whatever happens; left alone, the engine shows everything
  // once and whole.
  method CmdBatRender(ls: nat -> Listing, lines: nat -> Option<string>, len: nat, tag: string)
    returns (out: string, stalled: bool)
    requires forall n :: Wellformed(ls(n))
    ensures !stalled
    ensures
      Still(ls, lines) && Fits(Entries(ls(0)), len) && LineFits(lines(0), len) ==>
        out == Text(Entries(ls(0))) + if lines(0).Some? then lines(0).value else ""
  {
    ghost var still := Still(ls, lines) && Fits(Entries(ls(0)), len) && LineFits(lines(0), len);
    ghost var es := Entries(ls(0));
    var cursor, n := 0, 0;
    out := "";
    AllLeft(es, lines(0));
    hide From, Fits, Text, Still, LineFits, Left, PortPage, Wellformed;
    while true
      invariant cursor <= LINE
      invariant still ==> Left(es, 0, lines(0)) == out + Left(es, cursor, lines(0))
      decreases LINE - cursor
    {
      var from := cursor;
      var text;
      text, cursor := PortRender(ls(n), cursor, len, tag, lines(n));
      if still {
        StillJoins(ls, lines, n, from, len, tag, out);
      }
      out := out + text;
      if cursor != DONE && cursor <= from {
        return out, true;
      }
      if cursor == DONE {
        break;
      }
      n := n + 1;
    }
    stalled := false;
  }

  // bat_port_render_'s part of one chunk.
  method PortRender(l: Listing, cursor: nat, len: nat, tag: string, line: Option<string>)
      returns (text: string, next: nat)
    requires Wellformed(l) && cursor <= LINE
    ensures Page(text, next) == PortPage(Entries(l), cursor, len, tag, line)
    ensures next == DONE || cursor < next <= LINE
  {
    ListOrdered(l.summary, Slots(l));
    PortAdvances(Entries(l), cursor, len, tag, line);
    hide PageOf, List, Slots, Ordered;
    if cursor == LINE {
      text, next := "", DONE;
    } else {
      text, next := Render(l, cursor, len, tag);
    }
    if line.Some? && next == DONE && |text| < len {
      if |line.value| < len - |text| {
        text := text + line.value;
      } else if text != "" {
        next := LINE;
      }
    }
  }
}
