/** JPEG markers in a byte buffer: SOI and EOI of ITU-T T.81, section B.1.1.3. */
module Jpeg {
  import opened Bytes

  predicate Soi(d: seq<byte>, i: int) {
    0 <= i && i + 1 < |d| && d[i] == 0xFF && d[i + 1] == 0xD8
  }

  predicate Eoi(d: seq<byte>, i: int) {
    0 <= i && i + 1 < |d| && d[i] == 0xFF && d[i + 1] == 0xD9
  }

  /** The two bytes of each marker; two markers never overlap. */
  lemma MarkerBytes(d: seq<byte>, i: int)
    ensures Soi(d, i) <==> 0 <= i < |d| - 1 && d[i..i + 2] == [0xFF, 0xD8]
    ensures Eoi(d, i) <==> 0 <= i < |d| - 1 && d[i..i + 2] == [0xFF, 0xD9]
    ensures Soi(d, i) || Eoi(d, i) ==> !Soi(d, i + 1) && !Eoi(d, i + 1)
  {
    if 0 <= i < |d| - 1 {
      assert d[i..i + 2] == [d[i], d[i + 1]];
    }
  }

  /** `j` is the first end marker at or after `from`. */
  ghost predicate FirstEoi(d: seq<byte>, from: int, j: int) {
    from <= j && Eoi(d, j) && forall k :: from <= k < j ==> !Eoi(d, k)
  }

  ghost predicate NoEoi(d: seq<byte>, from: int) {
    forall k :: from <= k ==> !Eoi(d, k)
  }

  /** A start marker with the first end marker that follows it. */
  ghost predicate Segment(d: seq<byte>, start: int, len: int) {
    Soi(d, start) && FirstEoi(d, start + 2, start + len - 2)
  }

  /** Each start marker begins at most one segment. */
  lemma SegmentLengthUnique(d: seq<byte>, start: int, len1: int, len2: int)
    requires Segment(d, start, len1) && Segment(d, start, len2)
    ensures len1 == len2
  {
    assert Eoi(d, start + len1 - 2) && Eoi(d, start + len2 - 2);
  }

  /** The inner search loop of both tools. */
  method FindEoi(d: seq<byte>, from: nat) returns (found: bool, j: nat)
    ensures found ==> FirstEoi(d, from, j)
    ensures found ==> j + 1 < |d| && d[j] == 0xFF && d[j + 1] == 0xD9
    ensures !found ==> NoEoi(d, from)
  {
    j := from;
    while j + 1 < |d|
      invariant from <= j
      invariant forall k :: from <= k < j ==> !Eoi(d, k)
      decreases |d| - j
    {
      if d[j] == 0xFF && d[j + 1] == 0xD9 {
        return true, j;
      }
      j := j + 1;
    }
    found := false;
  }
}
