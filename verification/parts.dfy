/**
 * The Part Sender's arithmetic: how many parts an outgoing payload needs and
 * which bytes make up each part.
 */
module Parts {

  type byte = bv8

  function Min(a: nat, b: nat): nat {
    if a <= b then a else b
  }

  /**
   * `Math.ceil(a / b)` for a positive divisor, in exact arithmetic: the least
   * q with q * b >= a.
   */
  function CeilDiv(a: nat, b: nat): (q: nat)
    requires b > 0
    ensures q * b >= a
    ensures q > 0 ==> (q - 1) * b < a
    ensures q == 0 <==> a == 0
  {
    var q := (a + b - 1) / b;
    assert (a + b - 1) == q * b + (a + b - 1) % b;
    assert q > 0 ==> (q - 1) * b == q * b - b;
    q
  }

  /** CeilDiv(a, b) is at most c exactly when c parts of size b hold a. */
  lemma CeilDivAtMost(a: nat, b: nat, c: nat)
    requires b > 0
    ensures CeilDiv(a, b) <= c <==> a <= c * b
  {
    var q := CeilDiv(a, b);
    if q <= c {
      MulMonotone(q, c, b);
    } else {
      MulMonotone(c, q - 1, b);
    }
  }

  lemma MulMonotone(x: nat, y: nat, b: nat)
    requires x <= y
    ensures x * b <= y * b
  {
  }

  /**
   * sendFilePart's slice: the bytes `[i * ps, i * ps + ps)` of the payload,
   * clipped to its end as `Array.prototype.slice` clips.
   */
  function PartData(data: seq<byte>, partIndex: nat, partSize: nat): (part: seq<byte>)
    ensures |part| <= partSize
    ensures partIndex * partSize >= |data| ==> part == []
    ensures partIndex * partSize + partSize <= |data| ==> |part| == partSize
    ensures forall k :: 0 <= k < |part| ==>
      partIndex * partSize + k < |data| && part[k] == data[partIndex * partSize + k]
  {
    var start := Min(partIndex * partSize, |data|);
    var end := Min(partIndex * partSize + partSize, |data|);
    data[start..end]
  }

  /** The first n parts, concatenated in index order. */
  function JoinParts(data: seq<byte>, partSize: nat, n: nat): seq<byte> {
    if n == 0 then [] else JoinParts(data, partSize, n - 1) + PartData(data, n - 1, partSize)
  }

  /** The first n parts together are the first n * partSize bytes of the payload. */
  lemma {:induction false} JoinPartsPrefix(data: seq<byte>, partSize: nat, n: nat)
    ensures JoinParts(data, partSize, n) == data[..Min(n * partSize, |data|)]
  {
    if n > 0 {
      JoinPartsPrefix(data, partSize, n - 1);
      assert (n - 1) * partSize + partSize == n * partSize;
    }
  }

  /** Every index at or beyond `total_parts` yields an empty part. */
  lemma PartBeyondTotal(data: seq<byte>, partSize: nat, partIndex: nat)
    requires partSize > 0
    requires partIndex >= CeilDiv(|data|, partSize)
    ensures PartData(data, partIndex, partSize) == []
  {
    MulMonotone(CeilDiv(|data|, partSize), partIndex, partSize);
  }

  /** Parts 0 .. total_parts - 1 reassemble exactly the payload. */
  lemma PartsReassemble(data: seq<byte>, partSize: nat)
    requires partSize > 0
    ensures JoinParts(data, partSize, CeilDiv(|data|, partSize)) == data
  {
    JoinPartsPrefix(data, partSize, CeilDiv(|data|, partSize));
  }
}
