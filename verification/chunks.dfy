/**
 * The Chunk Assembler: received parts are kept in a dictionary from part
 * index to bytes, and the finished file is `Object.values(chunks)`, which
 * visits the integer keys in ascending order (OrdinaryOwnPropertyKeys,
 * section 10.1.11.1 of ECMA-262) and so skips any index never received.
 */
module Chunks {
  import opened Parts

  type ChunkMap = map<nat, seq<byte>>

  /** The stored chunks with index below n, concatenated in ascending index order. */
  function ValuesBelow(chunks: ChunkMap, n: nat): seq<byte> {
    if n == 0 then []
    else ValuesBelow(chunks, n - 1) + (if n - 1 in chunks then chunks[n - 1] else [])
  }

  /** A number above every stored index. */
  ghost function KeyBound(keys: set<nat>): (n: nat)
    ensures forall k :: k in keys ==> k < n
    decreases keys
  {
    if keys == {} then 0
    else
      var k :| k in keys;
      var m := KeyBound(keys - {k});
      assert forall j :: j in keys ==> j == k || j in keys - {k};
      if k < m then m else k + 1
  }

  /** `Object.values(chunks)` joined into one byte sequence. */
  ghost function OrderedValues(chunks: ChunkMap): seq<byte> {
    ValuesBelow(chunks, KeyBound(chunks.Keys))
  }

  /** Indexes with no stored chunk contribute nothing. */
  lemma {:induction false} ValuesBelowSkipsAbsent(chunks: ChunkMap, n: nat, m: nat)
    requires n <= m
    requires forall k :: n <= k < m ==> k !in chunks
    ensures ValuesBelow(chunks, m) == ValuesBelow(chunks, n)
    decreases m
  {
    if m > n {
      ValuesBelowSkipsAbsent(chunks, n, m - 1);
    }
  }

  /** OrderedValues is ValuesBelow at any bound above every stored index. */
  lemma OrderedValuesAt(chunks: ChunkMap, n: nat)
    requires forall k :: k in chunks ==> k < n
    ensures OrderedValues(chunks) == ValuesBelow(chunks, n)
  {
    var b := KeyBound(chunks.Keys);
    if b <= n {
      ValuesBelowSkipsAbsent(chunks, b, n);
    } else {
      ValuesBelowSkipsAbsent(chunks, n, b);
    }
  }

  /** A set holding k has a least element, found by descending from k. */
  lemma {:induction false} LeastAtMost(s: set<nat>, k: nat)
    requires k in s
    ensures exists m :: m in s && forall j :: j in s ==> m <= j
    decreases k
  {
    if exists j :: j in s && j < k {
      var j :| j in s && j < k;
      LeastAtMost(s, j);
    } else {
      assert forall j :: j in s ==> k <= j;
    }
  }

  /** Every non-empty finite set of indexes has a least element. */
  lemma LeastIndexExists(s: set<nat>)
    requires s != {}
    ensures exists k :: k in s && forall j :: j in s ==> k <= j
  {
    var k :| k in s;
    LeastAtMost(s, k);
  }

  /**
   * Builds the blob the way `Object.values` does: take the stored indexes
   * from the smallest up and append each chunk.
   */
  method AssembleBlob(chunks: ChunkMap) returns (blob: seq<byte>)
    ensures blob == OrderedValues(chunks)
  {
    blob := [];
    var rest := chunks.Keys;
    ghost var done: nat := 0;
    while rest != {}
      invariant forall k :: k in rest <==> k in chunks && k >= done
      invariant blob == ValuesBelow(chunks, done)
      decreases |rest|
    {
      LeastIndexExists(rest);
      var k :| k in rest && forall j :: j in rest ==> k <= j;
      ValuesBelowSkipsAbsent(chunks, done, k);
      blob := blob + chunks[k];
      rest := rest - {k};
      done := k + 1;
    }
    OrderedValuesAt(chunks, done);
  }

  /**
   * The chunk map after parts arrive at the given indexes in the given order,
   * each arrival writing `parts[i]` at index i (a repeated arrival overwrites).
   */
  function Receive(chunks: ChunkMap, parts: seq<seq<byte>>, arrivals: seq<nat>): ChunkMap
    requires forall j :: 0 <= j < |arrivals| ==> arrivals[j] < |parts|
    decreases |arrivals|
  {
    if arrivals == [] then chunks
    else Receive(chunks[arrivals[0] := parts[arrivals[0]]], parts, arrivals[1..])
  }

  /** What a received index holds: the part's bytes, whatever the order or repetition. */
  lemma {:induction false} ReceiveAt(chunks: ChunkMap, parts: seq<seq<byte>>, arrivals: seq<nat>, k: nat)
    requires forall j :: 0 <= j < |arrivals| ==> arrivals[j] < |parts|
    ensures k in Receive(chunks, parts, arrivals) <==> k in chunks || k in arrivals
    ensures k in arrivals ==> Receive(chunks, parts, arrivals)[k] == parts[k]
    ensures k !in arrivals && k in chunks ==> Receive(chunks, parts, arrivals)[k] == chunks[k]
    decreases |arrivals|
  {
    if arrivals != [] {
      ReceiveAt(chunks[arrivals[0] := parts[arrivals[0]]], parts, arrivals[1..], k);
      assert k in arrivals <==> k == arrivals[0] || k in arrivals[1..];
    }
  }

  /** The parts with index below n that arrived at least once, concatenated in index order. */
  function ReceivedBelow(parts: seq<seq<byte>>, arrivals: seq<nat>, n: nat): seq<byte>
    requires n <= |parts|
  {
    if n == 0 then []
    else ReceivedBelow(parts, arrivals, n - 1) + (if n - 1 in arrivals then parts[n - 1] else [])
  }

  /** All the parts, concatenated in index order. */
  function Flatten(parts: seq<seq<byte>>): seq<byte> {
    if parts == [] then [] else Flatten(parts[..|parts| - 1]) + parts[|parts| - 1]
  }

  lemma {:induction false} ReceivedBelowAll(parts: seq<seq<byte>>, arrivals: seq<nat>, n: nat)
    requires n <= |parts|
    requires forall i :: 0 <= i < n ==> i in arrivals
    ensures ReceivedBelow(parts, arrivals, n) == Flatten(parts[..n])
  {
    if n > 0 {
      ReceivedBelowAll(parts, arrivals, n - 1);
      assert parts[..n][..n - 1] == parts[..n - 1];
    }
  }

  lemma {:induction false} ValuesBelowReceived(parts: seq<seq<byte>>, arrivals: seq<nat>, n: nat)
    requires forall j :: 0 <= j < |arrivals| ==> arrivals[j] < |parts|
    requires n <= |parts|
    ensures ValuesBelow(Receive(map[], parts, arrivals), n) == ReceivedBelow(parts, arrivals, n)
  {
    if n > 0 {
      ValuesBelowReceived(parts, arrivals, n - 1);
      ReceiveAt(map[], parts, arrivals, n - 1);
    }
  }

  /**
   * Starting from an empty dictionary, the blob is the concatenation, in
   * index order, of exactly the parts that arrived; missing parts are
   * skipped silently, whatever the arrival order or repetition.
   */
  lemma BlobOfArrivals(parts: seq<seq<byte>>, arrivals: seq<nat>)
    requires forall j :: 0 <= j < |arrivals| ==> arrivals[j] < |parts|
    ensures OrderedValues(Receive(map[], parts, arrivals)) == ReceivedBelow(parts, arrivals, |parts|)
  {
    var c := Receive(map[], parts, arrivals);
    forall k | k in c
      ensures k < |parts|
    {
      ReceiveAt(map[], parts, arrivals, k);
    }
    OrderedValuesAt(c, |parts|);
    ValuesBelowReceived(parts, arrivals, |parts|);
  }

  /**
   * When every part arrives at least once, in any order and with any
   * repetition, the blob is the whole file.
   */
  lemma BlobOfAllParts(parts: seq<seq<byte>>, arrivals: seq<nat>)
    requires forall j :: 0 <= j < |arrivals| ==> arrivals[j] < |parts|
    requires forall i :: 0 <= i < |parts| ==> i in arrivals
    ensures OrderedValues(Receive(map[], parts, arrivals)) == Flatten(parts)
  {
    BlobOfArrivals(parts, arrivals);
    ReceivedBelowAll(parts, arrivals, |parts|);
    assert parts[..|parts|] == parts;
  }

  /** A gap is not detected: with only the last of three parts received, the blob is that part alone. */
  lemma BlobSkipsGap(a: seq<byte>, b: seq<byte>, c: seq<byte>)
    ensures OrderedValues(Receive(map[], [a, b, c], [2])) == c
  {
    BlobOfArrivals([a, b, c], [2]);
    assert ReceivedBelow([a, b, c], [2], 1) == [];
    assert ReceivedBelow([a, b, c], [2], 2) == [];
  }
}
