// The kept sequence numbers of main/bat/bat_core.c (bat_seq_note, seq_keep_ok,
// bat_init): a record that outlives a warm reset at any point.
module SeqKeep {
  import opened Crc32c
  import opened Serials
  import SeqMargin

  const MAGIC: bv32 := 0xBA75E001
  const WORDS: int := 7

  // The record of struct bat_seq_keep.
  datatype Keep = Keep(magic: bv32, addrHi: bv32, addrLo: bv32, elp: bv32, ogm: bv32, bcast: bv32, crc: bv32)

  datatype Addr = Addr(hi: bv32, lo: bv32)

  // The next number each counter sends. (The broadcast counter of the engine holds one
  // less: it is incremented before use.)
  datatype Next = Next(elp: bv32, ogm: bv32, bcast: bv32)

  datatype Counter = Elp | Ogm | Bcast

  function NextOf(n: Next, c: Counter): bv32 {
    match c
    case Elp => n.elp
    case Ogm => n.ogm
    case Bcast => n.bcast
  }

  function Image(a: Addr, n: Next): seq<bv8> {
    Be(MAGIC) + Be(a.hi) + Be(a.lo) + Be(n.elp) + Be(n.ogm) + Be(n.bcast)
  }

  function KeepCrc(a: Addr, n: Next): bv32 {
    Crc(0xFFFF_FFFF, Image(a, n))
  }

  // seq_keep_ok
  predicate Intact(k: Keep, a: Addr) {
    && k.magic == MAGIC && k.addrHi == a.hi && k.addrLo == a.lo
    && k.crc == KeepCrc(a, Next(k.elp, k.ogm, k.bcast))
  }

  function RecordOf(a: Addr, n: Next): Keep {
    Keep(MAGIC, a.hi, a.lo, n.elp, n.ogm, n.bcast, KeepCrc(a, n))
  }

  // What a reset finds after the first i of the seven words of k' are written over k.
  function Written(k: Keep, k': Keep, i: nat): Keep {
    Keep(if i > 0 then k'.magic else k.magic,
         if i > 1 then k'.addrHi else k.addrHi,
         if i > 2 then k'.addrLo else k.addrLo,
         if i > 3 then k'.elp else k.elp,
         if i > 4 then k'.ogm else k.ogm,
         if i > 5 then k'.bcast else k.bcast,
         if i > 6 then k'.crc else k.crc)
  }

  // One number of counter c taken.
  function Take(n: Next, c: Counter): Next {
    match c
    case Elp => n.(elp := Inc(n.elp))
    case Ogm => n.(ogm := Inc(n.ogm))
    case Bcast => n.(bcast := Inc(n.bcast))
  }

  // bat_init over an intact record.
  function Resumed(k: Keep): Next {
    Next(PastMargin(k.elp), PastMargin(k.ogm), PastMargin(k.bcast))
  }

  // The record itself, its words written one by one.
  class Record {
    var k: Keep

    // words: the record after each write, the first before any.
    method Note(a: Addr, n: Next) returns (ghost words: seq<Keep>)
      modifies this
      ensures k == RecordOf(a, n)
      ensures |words| == WORDS + 1
      ensures forall i :: 0 <= i <= WORDS ==> words[i] == Written(old(k), RecordOf(a, n), i)
    {
      words := [k];
      k := k.(magic := MAGIC);
      words := words + [k];
      k := k.(addrHi := a.hi);
      words := words + [k];
      k := k.(addrLo := a.lo);
      words := words + [k];
      k := k.(elp := n.elp);
      words := words + [k];
      k := k.(ogm := n.ogm);
      words := words + [k];
      k := k.(bcast := n.bcast);
      words := words + [k];
      k := k.(crc := KeepCrc(a, n));
      words := words + [k];
    }
  }

  lemma IncDiffers(x: bv32)
    ensures Inc(x) != x
  {
  }

  // One counter word apart means another check.
  lemma CounterChangesCrc(a: Addr, n: Next, c: Counter)
    ensures KeepCrc(a, Take(n, c)) != KeepCrc(a, n)
  {
    var head := Be(MAGIC) + Be(a.hi) + Be(a.lo);
    var n' := Take(n, c);
    IncDiffers(NextOf(n, c));
    hide Crc, Be, Inc;
    match c
    case Elp =>
      OneWordDiffers(0xFFFF_FFFF, head, n.elp, n'.elp, Be(n.ogm) + Be(n.bcast));
      assert Image(a, n) == head + Be(n.elp) + (Be(n.ogm) + Be(n.bcast));
      assert Image(a, n') == head + Be(n'.elp) + (Be(n.ogm) + Be(n.bcast));
    case Ogm =>
      OneWordDiffers(0xFFFF_FFFF, head + Be(n.elp), n.ogm, n'.ogm, Be(n.bcast));
    case Bcast =>
      OneWordDiffers(0xFFFF_FFFF, head + Be(n.elp) + Be(n.ogm), n.bcast, n'.bcast, []);
      assert Image(a, n) == head + Be(n.elp) + Be(n.ogm) + Be(n.bcast) + [];
      assert Image(a, n') == head + Be(n.elp) + Be(n.ogm) + Be(n'.bcast) + [];
  }

  // A record torn between two notes is the old one or rejected; whole, it is another one.
  lemma TornIsRejected(a: Addr, n: Next, c: Counter, i: nat)
    requires i <= WORDS
    ensures
      var old', new' := RecordOf(a, n), RecordOf(a, Take(n, c));
      var k := Written(old', new', i);
      old' != new' && if i == WORDS then k == new' else k == old' || !Intact(k, a)
  {
    CounterChangesCrc(a, n, c);
    hide KeepCrc, Inc;
  }

  // ---- the note of a start ---------------------------------------------------------------

  // The counters of n, those whose words are among the first i written 256 further on.
  function Mixed(n: Next, i: nat): Next {
    Next(SeqMargin.Further(n.elp, i > 3), SeqMargin.Further(n.ogm, i > 4), SeqMargin.Further(n.bcast, i > 5))
  }

  lemma MixedChangesCrc(a: Addr, n: Next, i: nat)
    requires 3 < i
    ensures KeepCrc(a, Mixed(n, i)) != KeepCrc(a, n)
  {
    var head := Be(MAGIC) + Be(a.hi) + Be(a.lo);
    var m := Mixed(n, i);
    hide Crc, Be, SeqMargin.Further;
    CrcAppend(0xFFFF_FFFF, head, Be(n.elp) + Be(n.ogm) + Be(n.bcast));
    CrcAppend(0xFFFF_FFFF, head, Be(m.elp) + Be(m.ogm) + Be(m.bcast));
    assert Image(a, n) == head + (Be(n.elp) + Be(n.ogm) + Be(n.bcast));
    assert Image(a, m) == head + (Be(m.elp) + Be(m.ogm) + Be(m.bcast));
    SeqMargin.MarginChangesCheck(Crc(0xFFFF_FFFF, head), n.elp, n.ogm, n.bcast, i > 4, i > 5);
  }

  // The note of a start moves all three counters at once; torn anywhere, it too leaves the old
  // record or one that is rejected.
  lemma TornStartIsRejected(a: Addr, n: Next, i: nat)
    requires i <= WORDS
    ensures
      var old', new' := RecordOf(a, n), RecordOf(a, Resumed(RecordOf(a, n)));
      var k := Written(old', new', i);
      old' != new' && if i == WORDS then k == new' else k == old' || !Intact(k, a)
  {
    if 3 < i {
      MixedChangesCrc(a, n, i);
    }
    MixedChangesCrc(a, n, WORDS);
    hide KeepCrc, PastMargin;
  }

  // An intact record is the one its counters make.
  lemma IntactIs(k: Keep, a: Addr)
    ensures Intact(k, a) <==> k == RecordOf(a, Next(k.elp, k.ogm, k.bcast))
  {
    hide KeepCrc;
  }
}
