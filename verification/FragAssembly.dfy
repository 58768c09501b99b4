// Putting fragments back together (main/bat/bat_frag.c, bat_frag_rx): three slots,
// pieces taken in any order.
module FragAssembly {
  import opened Words
  import opened FragSplit
  import opened Counting

  type Pieces = map<nat, Bytes>

  // A packet being put together: its length, the pieces by number.
  datatype Partial = Partial(total: nat, got: Pieces)

  datatype Option<T> = None | Some(value: T)

  // Bytes in the pieces below n, and the pieces below n joined, highest number first.
  function Size(got: Pieces, n: nat): nat {
    if n == 0 then 0 else Size(got, n - 1) + if n - 1 in got then |got[n - 1]| else 0
  }

  function Join(got: Pieces, n: nat): Bytes {
    if n == 0 then [] else (if n - 1 in got then got[n - 1] else []) + Join(got, n - 1)
  }

  lemma {:induction false} JoinSize(got: Pieces, n: nat)
    ensures |Join(got, n)| == Size(got, n)
  {
    if n > 0 {
      JoinSize(got, n - 1);
    }
  }

  lemma {:induction false} SizeStore(got: Pieces, num: nat, data: Bytes, n: nat)
    requires num !in got
    ensures Size(got[num := data], n) == Size(got, n) + if num < n then |data| else 0
  {
    if n > 0 {
      SizeStore(got, num, data, n - 1);
    }
  }

  // One fragment of the packet's own sequence number reaching its slot: the slot
  // afterwards, and the packet if this piece completed it.
  function Receive(p: Option<Partial>, total: nat, num: nat, data: Bytes): (Option<Partial>, Option<Bytes>) {
    if p.Some? && p.value.total != total then (None, None)
    else if p.Some? && num in p.value.got then (p, None)
    else
      var got := if p.Some? then p.value.got else map[];
      if Size(got, MAX_N) + |data| > total then (None, None)
      else if Size(got, MAX_N) + |data| == total then (None, Some(Join(got[num := data], MAX_N)))
      else (Some(Partial(total, got[num := data])), None)
  }

  function AsSeq<T>(o: Option<T>): seq<T> {
    if o.Some? then [o.value] else []
  }

  lemma NoneIsEmpty<T>(o: Option<T>)
    ensures AsSeq<T>(None) + AsSeq(o) == AsSeq(o)
  {
  }

  // Piece numbers arriving at a slot one after the other, and every packet that comes out.
  function Deliver(pieces: seq<Bytes>, total: nat, nums: seq<nat>): (Option<Partial>, seq<Bytes>)
    requires forall i :: 0 <= i < |nums| ==> nums[i] < |pieces|
  {
    if nums == [] then (None, [])
    else
      var last := |nums| - 1;
      var (p, outs) := Deliver(pieces, total, nums[..last]);
      var (p', out) := Receive(p, total, nums[last], pieces[nums[last]]);
      (p', outs + AsSeq(out))
  }

  // ---- round trip ---------------------------------------------------------------

  // Non-empty pieces cut from the tail of pkt: piece k lies between cuts k + 1 and k.
  ghost predicate Cutting(pkt: Bytes, pieces: seq<Bytes>, cuts: seq<nat>) {
    && 0 < |pieces| <= MAX_N && |cuts| == |pieces| + 1
    && cuts[0] == |pkt| && cuts[|pieces|] == 0
    && (forall k :: 0 <= k < |pieces| ==> CutAt(pkt, pieces, cuts, k))
  }

  ghost predicate CutAt(pkt: Bytes, pieces: seq<Bytes>, cuts: seq<nat>, k: nat)
    requires k < |pieces| && |cuts| == |pieces| + 1
  {
    cuts[k + 1] < cuts[k] <= |pkt| && pieces[k] == pkt[cuts[k + 1]..cuts[k]]
  }

  // The pieces whose numbers are in s.
  function Part(pieces: seq<Bytes>, s: set<nat>): Pieces {
    map k | k in s && k < |pieces| :: pieces[k]
  }

  ghost function Numbers(nums: seq<nat>): set<nat> {
    set k | k in nums
  }

  lemma {:induction false} SizeOfPart(pieces: seq<Bytes>, s: set<nat>, t: set<nat>, n: nat)
    requires s <= t
    ensures Size(Part(pieces, s), n) <= Size(Part(pieces, t), n)
    ensures (exists k :: k in t && k !in s && k < n && k < |pieces| && pieces[k] != []) ==>
      Size(Part(pieces, s), n) < Size(Part(pieces, t), n)
  {
    if n > 0 {
      SizeOfPart(pieces, s, t, n - 1);
    }
  }

  lemma {:induction false} JoinCuts(pkt: Bytes, pieces: seq<Bytes>, cuts: seq<nat>, j: nat)
    requires Cutting(pkt, pieces, cuts) && j <= |pieces|
    ensures cuts[j] <= |pkt| && Join(Part(pieces, Upto(|pieces|)), j) == pkt[cuts[j]..]
  {
    if j > 0 {
      JoinCuts(pkt, pieces, cuts, j - 1);
      assert CutAt(pkt, pieces, cuts, j - 1);
      assert pkt[cuts[j]..] == pkt[cuts[j]..cuts[j - 1]] + pkt[cuts[j - 1]..];
    }
  }

  lemma {:induction false} JoinBeyond(got: Pieces, n: nat, m: nat)
    requires n <= m && forall k :: k in got ==> k < n
    ensures Join(got, m) == Join(got, n)
  {
    if n < m {
      JoinBeyond(got, n, m - 1);
    }
  }

  // All the pieces joined are the packet; some but not all of them make less of it.
  lemma PartOfPacket(pkt: Bytes, pieces: seq<Bytes>, cuts: seq<nat>, s: set<nat>)
    requires Cutting(pkt, pieces, cuts) && s <= Upto(|pieces|)
    ensures Size(Part(pieces, s), MAX_N) <= |pkt|
    ensures Size(Part(pieces, s), MAX_N) == |pkt| <==> s == Upto(|pieces|)
    ensures s == Upto(|pieces|) ==> Join(Part(pieces, s), MAX_N) == pkt
  {
    var all := Upto(|pieces|);
    JoinCuts(pkt, pieces, cuts, |pieces|);
    JoinBeyond(Part(pieces, all), |pieces|, MAX_N);
    JoinSize(Part(pieces, all), MAX_N);
    SizeOfPart(pieces, s, all, MAX_N);
    if s != all {
      var k :| k in all && k !in s;
      assert CutAt(pkt, pieces, cuts, k);
    }
  }

  // What the slot holds and what has come out once the pieces numbered seen have arrived.
  ghost function Seen(pkt: Bytes, pieces: seq<Bytes>, seen: set<nat>): (Option<Partial>, Option<Bytes>) {
    if seen == {} then (None, None)
    else if seen == Upto(|pieces|) then (None, Some(pkt))
    else (Some(Partial(|pkt|, Part(pieces, seen))), None)
  }

  lemma SeenOneMore(pkt: Bytes, pieces: seq<Bytes>, cuts: seq<nat>, before: set<nat>, k: nat)
    requires Cutting(pkt, pieces, cuts) && before < Upto(|pieces|) && k < |pieces|
    ensures Receive(Seen(pkt, pieces, before).0, |pkt|, k, pieces[k]).0 == Seen(pkt, pieces, before + {k}).0
    ensures Receive(Seen(pkt, pieces, before).0, |pkt|, k, pieces[k]).1 == Seen(pkt, pieces, before + {k}).1
  {
    var got := Part(pieces, before);
    assert before == {} ==> got == map[];
    if k in before {
      assert before + {k} == before;
    } else {
      assert Part(pieces, before + {k}) == got[k := pieces[k]];
      SizeStore(got, k, pieces[k], MAX_N);
      PartOfPacket(pkt, pieces, cuts, before + {k});
    }
  }

  // The pieces of a packet in any order and with any repetitions, delivered to its slot
  // until the last missing one arrives, bring out that packet and nothing else; before that
  // nothing comes out and the slot holds exactly the pieces seen.
  lemma {:induction false} AnyOrder(pkt: Bytes, pieces: seq<Bytes>, cuts: seq<nat>, nums: seq<nat>)
    requires Cutting(pkt, pieces, cuts) && forall i :: 0 <= i < |nums| ==> nums[i] < |pieces|
    requires nums != [] ==> Numbers(nums[..|nums| - 1]) != Upto(|pieces|)
    ensures Deliver(pieces, |pkt|, nums).0 == Seen(pkt, pieces, Numbers(nums)).0
    ensures Deliver(pieces, |pkt|, nums).1 == AsSeq(Seen(pkt, pieces, Numbers(nums)).1)
  {
    if nums == [] {
      assert Numbers(nums) == {};
    } else {
      hide *;
      var last := |nums| - 1;
      var before := Numbers(nums[..last]);
      NumbersOfPrefix(nums, |pieces|);
      if last > 0 {
        ShorterIsOpen(nums[..last], |pieces|);
      }
      AnyOrder(pkt, pieces, cuts, nums[..last]);
      SeenOneMore(pkt, pieces, cuts, before, nums[last]);
      SeenOpen(pkt, pieces, before);
      DeliverLast(pieces, |pkt|, nums);
      NoneIsEmpty(Receive(Seen(pkt, pieces, before).0, |pkt|, nums[last], pieces[nums[last]]).1);
    }
  }

  lemma DeliverLast(pieces: seq<Bytes>, total: nat, nums: seq<nat>)
    requires nums != [] && forall i :: 0 <= i < |nums| ==> nums[i] < |pieces|
    ensures
      var last := |nums| - 1;
      var q := Deliver(pieces, total, nums[..last]);
      var r := Receive(q.0, total, nums[last], pieces[nums[last]]);
      Deliver(pieces, total, nums) == (r.0, q.1 + AsSeq(r.1))
  {
  }

  lemma ShorterIsOpen(nums: seq<nat>, n: nat)
    requires nums != [] && forall i :: 0 <= i < |nums| ==> nums[i] < n
    requires Numbers(nums) != Upto(n)
    ensures Numbers(nums[..|nums| - 1]) != Upto(n)
  {
    NumbersOfPrefix(nums, n);
  }

  lemma NumbersOfPrefix(nums: seq<nat>, n: nat)
    requires nums != [] && forall i :: 0 <= i < |nums| ==> nums[i] < n
    ensures Numbers(nums) == Numbers(nums[..|nums| - 1]) + {nums[|nums| - 1]}
    ensures Numbers(nums) <= Upto(n) && Numbers(nums[..|nums| - 1]) <= Upto(n)
  {
    assert nums == nums[..|nums| - 1] + [nums[|nums| - 1]];
  }

  lemma SeenOpen(pkt: Bytes, pieces: seq<Bytes>, seen: set<nat>)
    ensures seen == {} || seen != Upto(|pieces|) ==> Seen(pkt, pieces, seen).1 == None
    ensures seen == {} ==> Seen(pkt, pieces, seen).0 == None
  {
  }

  // The sender's split is such a cutting.
  lemma SplitCuts(pkt: Bytes, hardMtu: nat) returns (cuts: seq<nat>)
    requires pkt != [] && hardMtu >= MIN_MTU && |Split(pkt, hardMtu)| <= MAX_N
    ensures Cutting(pkt, Split(pkt, hardMtu), cuts)
  {
    EqualSplit(|pkt|, Room(hardMtu));
    var pieces := Split(pkt, hardMtu);
    var n := |pieces|;
    var size := CeilDiv(|pkt|, n);
    cuts := seq(n + 1, k requires 0 <= k <= n => High(|pkt|, size, k));
    assert High(|pkt|, size, 0) == |pkt| && High(|pkt|, size, n) == 0;
    forall k | 0 <= k < n
      ensures CutAt(pkt, pieces, cuts, k)
    {
      SplitAt(pkt, hardMtu, k);
      Bounds(|pkt|, size, k);
    }
  }

  // Round trip of the sender's pieces through a receiver's slot.
  lemma RoundTrip(pkt: Bytes, hardMtu: nat, nums: seq<nat>)
    requires pkt != [] && hardMtu >= MIN_MTU && |Split(pkt, hardMtu)| <= MAX_N
    requires forall i :: 0 <= i < |nums| ==> nums[i] < |Split(pkt, hardMtu)|
    requires nums != [] && Numbers(nums[..|nums| - 1]) < Numbers(nums) == Upto(|Split(pkt, hardMtu)|)
    ensures Deliver(Split(pkt, hardMtu), |pkt|, nums) == (None, [pkt])
  {
    var cuts := SplitCuts(pkt, hardMtu);
    AnyOrder(pkt, Split(pkt, hardMtu), cuts, nums);
    assert nums[0] in Numbers(nums);
  }

  // The pieces as they are sent, one after the other.
  lemma SentInTurn(pkt: Bytes, hardMtu: nat)
    requires pkt != [] && hardMtu >= MIN_MTU && |Split(pkt, hardMtu)| <= MAX_N
    ensures
      var nums := seq(|Split(pkt, hardMtu)|, i => i);
      Deliver(Split(pkt, hardMtu), |pkt|, nums) == (None, [pkt])
  {
    EqualSplit(|pkt|, Room(hardMtu));
    var n := |Split(pkt, hardMtu)|;
    var nums := seq(n, i => i);
    var all, before := Numbers(nums), Numbers(nums[..n - 1]);
    assert forall k :: k in Upto(n) ==> nums[k] == k;
    assert all == Upto(n);
    assert n - 1 in all && n - 1 !in before && before <= all;
    hide Deliver, Split, Numbers;
    RoundTrip(pkt, hardMtu, nums);
  }
}
