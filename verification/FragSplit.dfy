// Cutting a packet into fragments (main/bat/bat_frag.c, bat_frag_tx): equal pieces,
// cut from the tail, numbered from the tail.
module FragSplit {
  import opened Words

  const HLEN: int := 20        // fragment header
  const MAX_FRAME: int := 1280 // fragment size cap, header included
  const MAX_N: int := 16       // a number is four bits
  const BUF: int := 2048       // largest packet a receiver puts together
  const MIN_MTU: int := 100    // bat_init refuses less

  type Bytes = seq<u8>

  datatype Fragment = Fragment(num: nat, seqno: u16, total: u16, data: Bytes)

  // Payload room of one fragment.
  function Room(hardMtu: nat): int {
    (if hardMtu < MAX_FRAME then hardMtu else MAX_FRAME) - HLEN
  }

  function CeilDiv(a: nat, b: nat): nat
    requires b > 0
  {
    (a + b - 1) / b
  }

  lemma CeilDivIs(a: nat, b: nat)
    requires a > 0 && b > 0
    ensures CeilDiv(a, b) > 0
    ensures (CeilDiv(a, b) - 1) * b < a <= CeilDiv(a, b) * b
  {
    var q := CeilDiv(a, b);
    assert a + b - 1 == q * b + (a + b - 1) % b;
    assert (q - 1) * b == q * b - b;
  }

  // Byte range of piece k of n-byte pieces cut from the tail of length bytes.
  function Low(length: nat, size: nat, k: nat): nat {
    if length > (k + 1) * size then length - (k + 1) * size else 0
  }

  function High(length: nat, size: nat, k: nat): nat {
    if length > k * size then length - k * size else 0
  }

  lemma Bounds(length: nat, size: nat, k: nat)
    ensures Low(length, size, k) <= High(length, size, k) <= length
    ensures High(length, size, k) - Low(length, size, k) <= size
    ensures Low(length, size, k) == High(length, size, k + 1)
  {
    assert (k + 1) * size == k * size + size;
  }

  function Piece(pkt: Bytes, size: nat, k: nat): Bytes {
    Bounds(|pkt|, size, k);
    pkt[Low(|pkt|, size, k)..High(|pkt|, size, k)]
  }

  lemma MulMono(a: nat, b: nat, c: nat)
    requires b <= c
    ensures a * b <= a * c
  {
  }

  // Rounding up twice still leaves a non-empty head piece and no piece too long.
  lemma EqualSplit(length: nat, room: nat)
    requires 0 < length && 0 < room
    ensures
      var n := CeilDiv(length, room);
      0 < n && 0 < CeilDiv(length, n) <= room
      && (n - 1) * CeilDiv(length, n) < length <= n * CeilDiv(length, n)
  {
    var n := CeilDiv(length, room);
    CeilDivIs(length, room);
    var size := CeilDiv(length, n);
    CeilDivIs(length, n);
    if size - 1 >= room {
      MulMono(n, room, size - 1);
    }
    MulMono(n - 1, size, room);
  }

  // Every piece below n is non-empty and fits; there is nothing beyond.
  lemma PieceLengths(pkt: Bytes, room: nat, k: nat)
    requires pkt != [] && room > 0 && k < CeilDiv(|pkt|, room)
    ensures 0 < CeilDiv(|pkt|, room)
    ensures 0 < |Piece(pkt, CeilDiv(|pkt|, CeilDiv(|pkt|, room)), k)| <= room
  {
    EqualSplit(|pkt|, room);
    var n := CeilDiv(|pkt|, room);
    var size := CeilDiv(|pkt|, n);
    Bounds(|pkt|, size, k);
    MulMono(size, k, n - 1);
    assert k * size < |pkt|;
  }

  // The pieces of a packet, number 0 being its tail.
  function Split(pkt: Bytes, hardMtu: nat): seq<Bytes>
    requires pkt != [] && hardMtu >= MIN_MTU
  {
    EqualSplit(|pkt|, Room(hardMtu));
    var n := CeilDiv(|pkt|, Room(hardMtu));
    seq(n, k requires 0 <= k < n => Piece(pkt, CeilDiv(|pkt|, n), k))
  }

  const TX_OK := 0
  const SEND_DROP := -11

  lemma SplitAt(pkt: Bytes, hardMtu: nat, k: nat)
    requires pkt != [] && hardMtu >= MIN_MTU && k < |Split(pkt, hardMtu)|
    ensures
      var s := CeilDiv(|pkt|, |Split(pkt, hardMtu)|);
      k * s < |pkt|
      && Split(pkt, hardMtu)[k] == pkt[if |pkt| > (k + 1) * s then |pkt| - (k + 1) * s else 0..|pkt| - k * s]
    ensures 0 < |Split(pkt, hardMtu)[k]| <= Room(hardMtu)
  {
    PieceLengths(pkt, Room(hardMtu), k);
  }

  lemma SplitCount(pkt: Bytes, hardMtu: nat)
    requires pkt != [] && hardMtu >= MIN_MTU
    ensures
      var e, n := Room(hardMtu), |Split(pkt, hardMtu)|;
      e > 0 && n > 0 && n == (|pkt| + e - 1) / e && CeilDiv(|pkt|, n) == (|pkt| + n - 1) / n
  {
    EqualSplit(|pkt|, Room(hardMtu));
  }

  // Cuts pkt for a link that takes hardMtu bytes; answers holds the link's answer to each
  // fragment. worst: the first answer that is not TX_OK.
  method FragTx(pkt: Bytes, hardMtu: nat, seqno: u16, answers: seq<int>)
    returns (out: seq<Fragment>, worst: int)
    requires pkt != [] && hardMtu >= MIN_MTU && |answers| >= MAX_N
    ensures
      var pieces := Split(pkt, hardMtu);
      if |pieces| > MAX_N || |pkt| > 0xFFFF then out == [] && worst == SEND_DROP
      else
        && |out| == |pieces|
        && (forall k :: 0 <= k < |pieces| ==> out[k] == Fragment(k, seqno, |pkt|, pieces[k]))
        && FirstFailure(answers[..|pieces|], worst)
  {
    var e := Room(hardMtu);
    ghost var pieces := Split(pkt, hardMtu);
    SplitCount(pkt, hardMtu);
    hide *;
    var n := (|pkt| + e - 1) / e;
    if n > MAX_N || |pkt| > 0xFFFF {
      return [], SEND_DROP;
    }
    var s := (|pkt| + n - 1) / n;
    NoFailure(answers);
    out, worst := [], TX_OK;
    for k := 0 to n
      invariant |out| == k
      invariant forall j :: 0 <= j < k ==> out[j] == Fragment(j, seqno, |pkt|, pieces[j])
      invariant FirstFailure(answers[..k], worst)
    {
      SplitAt(pkt, hardMtu, k);
      var hi := |pkt| - k * s;
      var lo := if |pkt| > (k + 1) * s then |pkt| - (k + 1) * s else 0;
      out := out + [Fragment(k, seqno, |pkt|, pkt[lo..hi])];
      FailureStep(answers, k, worst);
      if answers[k] != TX_OK && worst == TX_OK {
        worst := answers[k];
      }
    }
  }

  // The link's first answer that is not TX_OK, or TX_OK.
  ghost predicate FirstFailure(answers: seq<int>, worst: int) {
    if worst == TX_OK then forall j :: 0 <= j < |answers| ==> answers[j] == TX_OK
    else exists j :: 0 <= j < |answers| && answers[j] == worst && forall i :: 0 <= i < j ==> answers[i] == TX_OK
  }

  lemma NoFailure(answers: seq<int>)
    ensures FirstFailure(answers[..0], TX_OK)
  {
  }

  lemma FailureStep(answers: seq<int>, k: nat, worst: int)
    requires k < |answers| && FirstFailure(answers[..k], worst)
    ensures FirstFailure(answers[..k + 1], if answers[k] != TX_OK && worst == TX_OK then answers[k] else worst)
  {
    var a, b := answers[..k], answers[..k + 1];
    assert forall j :: 0 <= j < k ==> a[j] == b[j];
    if worst != TX_OK {
      var j :| 0 <= j < |a| && a[j] == worst && forall i :: 0 <= i < j ==> a[i] == TX_OK;
      assert b[j] == worst;
    } else if answers[k] != TX_OK {
      assert b[k] == answers[k];
    }
  }
}
