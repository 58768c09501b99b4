// Sequence numbers over any run of starts, numbers given out and resets (main/bat/bat_core.c,
// bat_init and bat_seq_note; the three senders), and what a peer makes of the next one.
module SeqRuns {
  import opened Words
  import opened Serials
  import opened SeqKeep
  import BcastWindow
  import Tables

  datatype Option<T> = None | Some(value: T)

  // One counter, its numbers unbounded: the next one the record names; the last one given out
  // since numbers were last drawn at random; the starts completed since then without another.
  datatype Track = Track(num: nat, last: Option<nat>, idle: nat)

  datatype Tracks = Tracks(elp: Track, ogm: Track, bcast: Track) {
    function At(c: Counter): Track {
      match c
      case Elp => elp
      case Ogm => ogm
      case Bcast => bcast
    }

    function With(c: Counter, t: Track): Tracks {
      match c
      case Elp => this.(elp := t)
      case Ogm => this.(ogm := t)
      case Bcast => this.(bcast := t)
    }

    // The counters' words.
    function Words(): Next {
      Next(Word(elp.num), Word(ogm.num), Word(bcast.num))
    }
  }

  // on: the engine runs, its record whole. Off: a reset left the record as it is.
  datatype Life = Life(on: bool, keep: Keep, tracks: Tracks)

  // written: the words of the note that a reset lets through, 7 if none comes.
  datatype Event =
    | Draw(c: Counter, written: nat)
    | Reset
    | Start(drawn: Next, written: nat)

  predicate Enabled(s: Life, e: Event) {
    match e
    case Draw(_, w) => s.on && w <= WORDS
    case Reset => s.on
    case Start(_, w) => !s.on && w <= WORDS
  }

  function Given(t: Track): Track {
    Track(t.num + 1, Some(t.num), 0)
  }

  function Ahead(t: Track): Track {
    t.(num := t.num + 256, idle := t.idle + 1)
  }

  function AllAhead(t: Tracks): Tracks {
    Tracks(Ahead(t.elp), Ahead(t.ogm), Ahead(t.bcast))
  }

  // Numbers nobody was sent yet.
  function Unsent(n: Next): Tracks {
    Tracks(Track(Value(n.elp), None, 0), Track(Value(n.ogm), None, 0), Track(Value(n.bcast), None, 0))
  }

  function NextIn(k: Keep): Next {
    Next(k.elp, k.ogm, k.bcast)
  }

  function Step(a: Addr, s: Life, e: Event): Life
    requires Enabled(s, e)
  {
    match e
    case Draw(c, w) =>
      var t := s.tracks.With(c, Given(s.tracks.At(c)));
      var k := Written(s.keep, RecordOf(a, t.Words()), w);
      // The old record still names the number given out.
      if k == s.keep then
        Life(w == WORDS, k,
             s.tracks.With(c, s.tracks.At(c).(last := Some(s.tracks.At(c).num), idle := 0)))
      else Life(w == WORDS, k, t)
    case Reset => s.(on := false)
    case Start(drawn, w) =>
      if Intact(s.keep, a) then
        var t := AllAhead(s.tracks);
        var k := Written(s.keep, RecordOf(a, t.Words()), w);
        Life(w == WORDS, k, if w == WORDS then t else s.tracks)
      else
        var k := Written(s.keep, RecordOf(a, drawn), w);
        Life(w == WORDS, k, Unsent(NextIn(k)))
  }

  // Whatever the memory holds at power-on.
  function Found(k: Keep): Life {
    Life(false, k, Unsent(NextIn(k)))
  }

  // ---- what every run keeps -----------------------------------------------------------------

  // 256 for each start since the last number, and one if the record names the next one.
  predicate Counted(t: Track, on: bool) {
    t.last.Some? ==>
      var past := t.num - t.last.value - 256 * t.idle;
      0 <= past <= 1 && (on && t.idle == 0 ==> past == 1)
  }

  ghost predicate Inv(a: Addr, s: Life) {
    && (s.on || Intact(s.keep, a) ==> s.keep == RecordOf(a, s.tracks.Words()))
    && forall c: Counter :: Counted(s.tracks.At(c), s.on)
  }

  lemma WordsOfUnsent(n: Next)
    ensures Unsent(n).Words() == n
  {
    WordOfValue(n.elp);
    WordOfValue(n.ogm);
    WordOfValue(n.bcast);
    hide Word, Value;
  }

  lemma WordsAhead(a: Addr, t: Tracks)
    ensures AllAhead(t).Words() == Resumed(RecordOf(a, t.Words()))
  {
    WordPast256(t.elp.num);
    WordPast256(t.ogm.num);
    WordPast256(t.bcast.num);
    hide Word, PastMargin, KeepCrc;
  }

  lemma WordsGiven(t: Tracks, c: Counter)
    ensures t.With(c, Given(t.At(c))).Words() == Take(t.Words(), c)
  {
    hide Inc;
  }

  lemma FoundInv(a: Addr, k: Keep)
    ensures Inv(a, Found(k))
  {
    IntactIs(k, a);
    WordsOfUnsent(NextIn(k));
    hide Intact, Value, Word;
  }

  lemma WrittenWhole(k: Keep, k': Keep)
    ensures Written(k, k', WORDS) == k'
  {
  }

  // Draw's two outcomes: a reset before the note reached the counter's word, or a new record.
  lemma DrawnTracks(t: Tracks, c: Counter, d: Counter)
    requires Counted(t.At(c), true) && Counted(t.At(d), true)
    ensures
      var held := t.With(c, t.At(c).(last := Some(t.At(c).num), idle := 0));
      held.Words() == t.Words() && Counted(held.At(d), false)
    ensures
      var given := t.With(c, Given(t.At(c)));
      given.Words() == Take(t.Words(), c) && Counted(given.At(d), true) && Counted(given.At(d), false)
  {
    WordsGiven(t, c);
    hide Word;
  }

  lemma DrawKeeps(a: Addr, s: Life, c: Counter, w: nat)
    requires Inv(a, s) && Enabled(s, Draw(c, w))
    ensures Inv(a, Step(a, s, Draw(c, w)))
  {
    TornIsRejected(a, s.tracks.Words(), c, w);
    var s' := Step(a, s, Draw(c, w));
    DrawnTracks(s.tracks, c, c);
    hide Written, Intact, Take, RecordOf, Word, Counted, Tracks.Words, Tracks.At, Tracks.With;
    forall d: Counter
      ensures Counted(s'.tracks.At(d), s'.on)
    {
      DrawnTracks(s.tracks, c, d);
    }
  }

  lemma AheadKeeps(s: Life, c: Counter)
    requires Counted(s.tracks.At(c), s.on)
    ensures Counted(AllAhead(s.tracks).At(c), true) && Counted(s.tracks.At(c), false)
  {
  }

  lemma WarmStartKeeps(a: Addr, s: Life, drawn: Next, w: nat)
    requires Inv(a, s) && Enabled(s, Start(drawn, w)) && Intact(s.keep, a)
    ensures Inv(a, Step(a, s, Start(drawn, w)))
  {
    var n := s.tracks.Words();
    WordsAhead(a, s.tracks);
    TornStartIsRejected(a, n, w);
    forall c: Counter
      ensures Counted(AllAhead(s.tracks).At(c), true) && Counted(s.tracks.At(c), false)
    {
      AheadKeeps(s, c);
    }
    hide Written, Intact, RecordOf, Resumed, Counted, Tracks.Words, Tracks.At, AllAhead;
  }

  lemma UnsentCounted(n: Next, c: Counter, on: bool)
    ensures Counted(Unsent(n).At(c), on)
  {
    hide Value;
  }

  lemma ColdStartKeeps(a: Addr, s: Life, drawn: Next, w: nat)
    requires Enabled(s, Start(drawn, w)) && !Intact(s.keep, a)
    ensures Inv(a, Step(a, s, Start(drawn, w)))
  {
    WrittenWhole(s.keep, RecordOf(a, drawn));
    assert NextIn(RecordOf(a, drawn)) == drawn;
    hide Written, Intact, RecordOf, Counted, Tracks.Words, Tracks.At, Unsent;
    var s' := Step(a, s, Start(drawn, w));
    IntactIs(s'.keep, a);
    WordsOfUnsent(NextIn(s'.keep));
    forall c: Counter
      ensures Counted(s'.tracks.At(c), s'.on)
    {
      UnsentCounted(NextIn(s'.keep), c, s'.on);
    }
  }

  lemma InvKept(a: Addr, s: Life, e: Event)
    requires Inv(a, s) && Enabled(s, e)
    ensures Inv(a, Step(a, s, e))
  {
    match e
    case Draw(c, w) => DrawKeeps(a, s, c, w);
    case Start(drawn, w) =>
      if Intact(s.keep, a) {
        WarmStartKeeps(a, s, drawn, w);
      } else {
        ColdStartKeeps(a, s, drawn, w);
      }
      hide Inv, Step;
    case Reset =>
      forall c: Counter
        ensures Counted(s.tracks.At(c), false)
      {
        assert Counted(s.tracks.At(c), true);
      }
      hide Intact, KeepCrc, Word;
  }

  predicate Runs(a: Addr, s: Life, es: seq<Event>)
    decreases |es|
  {
    es == [] || (Enabled(s, es[0]) && Runs(a, Step(a, s, es[0]), es[1..]))
  }

  function After(a: Addr, s: Life, es: seq<Event>): Life
    requires Runs(a, s, es)
    decreases |es|
  {
    if es == [] then s else After(a, Step(a, s, es[0]), es[1..])
  }

  lemma {:induction false} RunKeeps(a: Addr, s: Life, es: seq<Event>)
    requires Inv(a, s) && Runs(a, s, es)
    ensures Inv(a, After(a, s, es))
    decreases |es|
  {
    hide Inv, Step, Enabled;
    if es != [] {
      InvKept(a, s, es[0]);
      RunKeeps(a, Step(a, s, es[0]), es[1..]);
    }
  }

  lemma EveryLife(a: Addr, found: Keep, es: seq<Event>)
    requires Runs(a, Found(found), es)
    ensures Inv(a, After(a, Found(found), es))
  {
    FoundInv(a, found);
    RunKeeps(a, Found(found), es);
  }

  // ---- warm resets ---------------------------------------------------------------------------

  // How far the next number of a counter lies past the last one it gave out.
  function Past(t: Track): int
    requires t.last.Some?
  {
    t.num - t.last.value
  }

  // After any run, from any memory: the next number of a counter that gave one out lies 256
  // past it for each start since, or one more; 256 or 257 exactly when there was one start.
  lemma WarmReset(a: Addr, found: Keep, es: seq<Event>, c: Counter)
    requires Runs(a, Found(found), es) && After(a, Found(found), es).on
    requires After(a, Found(found), es).tracks.At(c).last.Some?
    ensures
      var s := After(a, Found(found), es);
      var t := s.tracks.At(c);
      s.keep == RecordOf(a, s.tracks.Words())
      && 256 * t.idle <= Past(t) <= 256 * t.idle + 1
      && (t.idle == 0 ==> Past(t) == 1)
      && (Past(t) == 256 || Past(t) == 257 <==> t.idle == 1)
  {
    EveryLife(a, found, es);
    var s := After(a, Found(found), es);
    assert Counted(s.tracks.At(c), s.on);
    hide After, Runs, Intact, RecordOf, Tracks.Words, Tracks.At;
  }

  // The engine gives it out: the record names it, and a peer reads it off the air.
  lemma NextIsNamed(a: Addr, s: Life, c: Counter)
    requires s.keep == RecordOf(a, s.tracks.Words())
    ensures NextOf(NextIn(s.keep), c) == Word(s.tracks.At(c).num)
    ensures Value(NextOf(NextIn(s.keep), c)) == Wrap32(s.tracks.At(c).num)
  {
    ValueOfWord(s.tracks.At(c).num);
    hide Word, Value, KeepCrc;
  }

  // A number d past a peer's newest is new to it, and no restart, exactly below 65536.
  lemma AheadOfPeer(num: nat, e: BcastWindow.Epoch)
    requires e.Consistent() && e.top < num
    ensures e.Fresh(num) <==> num - e.top < BcastWindow.MAX_JUMP
    ensures
      num - e.top < TWO31 ==>
        SDiff(Wrap32(num), Wrap32(e.top)) == num - e.top && !Tables.Dup(Wrap32(num), Wrap32(e.top))
  {
    SDiffExact(num, e.top);
    hide SDiff, Wrap32;
  }

  // What a peer at number top makes of the word on the air: with e what it took since the last
  // restart, it is new, and no restart, exactly below 65536 past top.
  ghost predicate Taken(num: nat, word: bv32, e: BcastWindow.Epoch) {
    var d := num - e.top;
    && Value(word) == Wrap32(num)
    && (d < TWO31 ==> SDiff(Wrap32(num), Wrap32(e.top)) == d && !Tables.Dup(Wrap32(num), Wrap32(e.top)))
    && (e.Fresh(num) <==> d < BcastWindow.MAX_JUMP)
  }

  // A peer that has fallen lag numbers behind takes the next number as new while lag and the
  // starts since the last one leave it below 65536.
  lemma PeerTakesResumed(a: Addr, found: Keep, es: seq<Event>, c: Counter, lag: nat, e: BcastWindow.Epoch)
    requires Runs(a, Found(found), es) && After(a, Found(found), es).on
    requires After(a, Found(found), es).tracks.At(c).last.Some?
    requires e.Consistent() && e.top == After(a, Found(found), es).tracks.At(c).last.value - lag
    ensures
      var s := After(a, Found(found), es);
      var t := s.tracks.At(c);
      Taken(t.num, NextOf(NextIn(s.keep), c), e)
      && lag + 256 * t.idle <= t.num - e.top <= lag + 256 * t.idle + 1
    ensures
      var t := After(a, Found(found), es).tracks.At(c);
      lag + 256 * t.idle + 1 < BcastWindow.MAX_JUMP ==> e.Fresh(t.num)
  {
    WarmReset(a, found, es, c);
    var s := After(a, Found(found), es);
    hide After, Runs;
    NextIsNamed(a, s, c);
    AheadOfPeer(s.tracks.At(c).num, e);
    hide Value, RecordOf, NextOf, Tracks.Words, Tracks.At, SDiff, Wrap32,
         BcastWindow.Epoch.Fresh, BcastWindow.Epoch.Consistent;
  }

  // n more resets with nothing given out between.
  function Restarts(n: nat, drawn: Next): seq<Event> {
    if n == 0 then [] else [Reset, Start(drawn, WORDS)] + Restarts(n - 1, drawn)
  }

  lemma OneRestart(a: Addr, s: Life, drawn: Next)
    requires Inv(a, s) && s.on
    ensures Enabled(s, Reset) && Step(a, s, Reset) == s.(on := false) && Enabled(s.(on := false), Start(drawn, WORDS))
    ensures
      var s' := Step(a, s.(on := false), Start(drawn, WORDS));
      s'.on && Inv(a, s') && s'.tracks == AllAhead(s.tracks)
  {
    IntactIs(s.keep, a);
    assert NextIn(s.keep) == s.tracks.Words() && Intact(s.keep, a);
    InvKept(a, s, Reset);
    InvKept(a, s.(on := false), Start(drawn, WORDS));
    hide Inv, Intact, Written, RecordOf, Tracks.Words;
  }

  lemma TwoMore(a: Addr, s: Life, e: Event, f: Event, rest: seq<Event>)
    requires Enabled(s, e) && Enabled(Step(a, s, e), f) && Runs(a, Step(a, Step(a, s, e), f), rest)
    ensures Runs(a, s, [e, f] + rest) && After(a, s, [e, f] + rest) == After(a, Step(a, Step(a, s, e), f), rest)
  {
    hide Step, Enabled;
    var es, tail := [e, f] + rest, [f] + rest;
    assert es[0] == e && es[1..] == tail && tail[0] == f && tail[1..] == rest;
    assert Runs(a, Step(a, s, e), tail);
  }

  // Each leaves every counter 256 further from the last number it gave out.
  lemma {:induction false} RestartsRun(a: Addr, s: Life, n: nat, drawn: Next, c: Counter)
    requires Inv(a, s) && s.on
    ensures Runs(a, s, Restarts(n, drawn)) && After(a, s, Restarts(n, drawn)).on
    ensures
      var t, t' := s.tracks.At(c), After(a, s, Restarts(n, drawn)).tracks.At(c);
      t' == t.(num := t.num + 256 * n, idle := t.idle + n)
    decreases n
  {
    hide Inv, Step, Enabled, Written, Intact, RecordOf;
    if n > 0 {
      OneRestart(a, s, drawn);
      var off := s.(on := false);
      var s2 := Step(a, off, Start(drawn, WORDS));
      RestartsRun(a, s2, n - 1, drawn, c);
      TwoMore(a, s, Reset, Start(drawn, WORDS), Restarts(n - 1, drawn));
      assert s2.tracks.At(c) == Ahead(s.tracks.At(c));
    }
  }

  // 256 starts without a number are one too many for any peer.
  lemma TooManyStarts(a: Addr, found: Keep, es: seq<Event>, c: Counter, lag: nat, e: BcastWindow.Epoch)
    requires Runs(a, Found(found), es) && After(a, Found(found), es).on
    requires After(a, Found(found), es).tracks.At(c).last.Some?
    requires e.Consistent() && e.top == After(a, Found(found), es).tracks.At(c).last.value - lag
    requires After(a, Found(found), es).tracks.At(c).idle >= 256
    ensures !e.Fresh(After(a, Found(found), es).tracks.At(c).num)
  {
    PeerTakesResumed(a, found, es, c, lag, e);
    hide After, Runs, BcastWindow.Epoch.Fresh, BcastWindow.Epoch.Consistent, Tracks.At, NextOf, Value;
  }

  // And there are such runs: 256 resets on end with no number of c given out between.
  lemma RestartsTooMany(a: Addr, s: Life, drawn: Next, c: Counter, lag: nat, e: BcastWindow.Epoch)
    requires Inv(a, s) && s.on && s.tracks.At(c).last.Some?
    requires e.Consistent() && e.top == s.tracks.At(c).last.value - lag
    ensures Runs(a, s, Restarts(256, drawn)) && !e.Fresh(After(a, s, Restarts(256, drawn)).tracks.At(c).num)
  {
    RestartsRun(a, s, 256, drawn, c);
    var t := s.tracks.At(c);
    assert Counted(t, s.on);
    hide Runs, After, Restarts, Inv;
    AheadOfPeer(t.num + 256 * 256, e);
    hide BcastWindow.Epoch.Fresh, BcastWindow.Epoch.Consistent;
  }

  // ---- the engine's counters and its record -------------------------------------------------

  lemma DrawWrites(a: Addr, s: Life, c: Counter, w: nat)
    requires Inv(a, s) && s.on && w <= WORDS
    ensures
      var n := Take(s.tracks.Words(), c);
      var s' := Step(a, s, Draw(c, w));
      s'.keep == Written(s.keep, RecordOf(a, n), w) && (w == WORDS ==> s'.tracks.Words() == n)
    ensures NextOf(s.tracks.Words(), c) == Word(s.tracks.At(c).num)
  {
    WordsGiven(s.tracks, c);
    WrittenWhole(s.keep, RecordOf(a, Take(s.tracks.Words(), c)));
    TornIsRejected(a, s.tracks.Words(), c, WORDS);
    hide Written, RecordOf, Take, Word;
  }

  lemma StartWrites(a: Addr, s: Life, drawn: Next, w: nat)
    requires Inv(a, s) && !s.on && w <= WORDS
    ensures
      var n := if Intact(s.keep, a) then Resumed(s.keep) else drawn;
      var s' := Step(a, s, Start(drawn, w));
      s'.keep == Written(s.keep, RecordOf(a, n), w) && (w == WORDS ==> s'.tracks.Words() == n)
  {
    WordsAhead(a, s.tracks);
    WordsOfUnsent(drawn);
    WrittenWhole(s.keep, RecordOf(a, drawn));
    NextInRecord(a, drawn);
    hide Written, RecordOf, Resumed, Intact, Tracks.Words, AllAhead, Unsent;
  }

  class Engine {
    const record: Record
    var next: Next

    constructor (record: Record)
      ensures this.record == record
    {
      this.record := record;
      next := Next(0, 0, 0);
    }

    // bat_init's part; words: the record after each write of its note.
    method Init(a: Addr, drawn: Next, ghost s: Life) returns (kept: bool, ghost words: seq<Keep>)
      requires Inv(a, s) && !s.on && s.keep == record.k
      modifies this, record
      ensures kept == Intact(old(record.k), a)
      ensures record.k == Step(a, s, Start(drawn, WORDS)).keep && next == Step(a, s, Start(drawn, WORDS)).tracks.Words()
      ensures |words| == WORDS + 1 && forall i :: 0 <= i <= WORDS ==> words[i] == Step(a, s, Start(drawn, i)).keep
    {
      kept := Intact(record.k, a);
      next := if kept then Resumed(record.k) else drawn;
      WrittenWhole(s.keep, RecordOf(a, next));
      forall i: nat | i <= WORDS
        ensures
          var s' := Step(a, s, Start(drawn, i));
          s'.keep == Written(s.keep, RecordOf(a, next), i) && (i == WORDS ==> s'.tracks.Words() == next)
      {
        StartWrites(a, s, drawn, i);
      }
      hide *;
      words := record.Note(a, next);
    }

    // One number of counter c and its note.
    method Give(a: Addr, c: Counter, ghost s: Life) returns (n: bv32, ghost words: seq<Keep>)
      requires Inv(a, s) && s.on && s.keep == record.k && next == s.tracks.Words()
      modifies this, record
      ensures n == Word(s.tracks.At(c).num) && next == Take(old(next), c)
      ensures record.k == Step(a, s, Draw(c, WORDS)).keep && next == Step(a, s, Draw(c, WORDS)).tracks.Words()
      ensures |words| == WORDS + 1 && forall i :: 0 <= i <= WORDS ==> words[i] == Step(a, s, Draw(c, i)).keep
    {
      n := NextOf(next, c);
      DrawWrites(a, s, c, WORDS);
      next := Take(next, c);
      WrittenWhole(s.keep, RecordOf(a, next));
      forall i: nat | i <= WORDS
        ensures
          var s' := Step(a, s, Draw(c, i));
          s'.keep == Written(s.keep, RecordOf(a, next), i) && (i == WORDS ==> s'.tracks.Words() == next)
      {
        DrawWrites(a, s, c, i);
      }
      hide *;
      words := record.Note(a, next);
    }
  }

  lemma NextInRecord(a: Addr, n: Next)
    ensures NextIn(RecordOf(a, n)) == n
  {
    hide KeepCrc;
  }
}
