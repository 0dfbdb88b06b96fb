/** The sidecar thumbnail: the longest JPEG segment of a DNG. */
module Thumbnail {
  import opened Bytes
  import opened Jpeg
  import opened Options

  const MIN_THUMBNAIL: nat := 64

  /** The longest segment over all start markers of the buffer, the earliest one on ties. */
  ghost predicate IsBest(d: seq<byte>, start: int, len: int) {
    && Segment(d, start, len)
    && forall i, l :: Segment(d, i, l) ==> l < len || (l == len && start <= i)
  }

  ghost predicate HasNoSegment(d: seq<byte>) {
    forall i, l :: !Segment(d, i, l)
  }

  lemma BestIsUnique(d: seq<byte>, s1: int, l1: int, s2: int, l2: int)
    requires IsBest(d, s1, l1) && IsBest(d, s2, l2)
    ensures s1 == s2 && l1 == l2
  {
    assert Segment(d, s1, l1) && Segment(d, s2, l2);
  }

  /**
   Why the scan may jump behind the segment it found: a start marker inside
   shares the end marker, and no start marker can overlap the end marker.
   */
  lemma SkippedAreShorter(d: seq<byte>, i: int, j: int, i': int, l: int)
    requires Soi(d, i) && FirstEoi(d, i + 2, j) && i < i' < j + 2 && Segment(d, i', l)
    ensures l < j + 2 - i
  {
    assert Eoi(d, j);
    if i' + 2 <= j {
      assert FirstEoi(d, i' + 2, j);
      SegmentLengthUnique(d, i', l, j + 2 - i');
    }
  }

  /** The skip-ahead scan. */
  method LargestSegment(d: seq<byte>) returns (bestStart: nat, bestLen: nat)
    ensures bestLen == 0 ==> bestStart == 0 && HasNoSegment(d)
    ensures bestLen > 0 ==> IsBest(d, bestStart, bestLen)
    ensures bestLen > 0 ==> bestLen >= 4 && bestStart + bestLen <= |d|
    ensures bestLen > 0 ==> d[bestStart] == 0xFF && d[bestStart + 1] == 0xD8
    ensures bestLen > 0 ==> d[bestStart + bestLen - 2] == 0xFF && d[bestStart + bestLen - 1] == 0xD9
    ensures forall i, l :: Segment(d, i, l) ==> l < bestLen || (l == bestLen && bestStart <= i)
  {
    bestStart, bestLen := 0, 0;
    var i := 0;
    while i + 1 < |d|
      invariant 0 <= i
      invariant bestLen == 0 ==> bestStart == 0
      invariant bestLen > 0 ==> Segment(d, bestStart, bestLen) && bestStart < i
      invariant forall k, l :: Segment(d, k, l) && k < i ==> l < bestLen || (l == bestLen && bestStart <= k)
      decreases |d| - i
    {
      if d[i] == 0xFF && d[i + 1] == 0xD8 {
        var found, j := FindEoi(d, i + 2);
        if found {
          forall k, l | Segment(d, k, l) && i <= k < j + 2 ensures l <= j + 2 - i && (l == j + 2 - i ==> k == i) {
            if k == i {
              SegmentLengthUnique(d, i, l, j + 2 - i);
            } else {
              SkippedAreShorter(d, i, j, k, l);
            }
          }
          var len := j + 2 - i;
          assert Segment(d, i, len);
          if len > bestLen {
            bestStart, bestLen := i, len;
          }
        }
        i := if found then j + 2 else i + 1;
      } else {
        i := i + 1;
      }
    }
  }

  datatype Sidecar = NotWritten | Written(bytes: seq<byte>)

  /**
   A thumbnail is written exactly when both files can be opened and the best
   segment has at least 64 bytes, and it is that segment.
   */
  method ExtractThumbnail(dng: Option<seq<byte>>, sidecarOpens: bool) returns (out: Sidecar)
    ensures out.Written? <==>
              dng.Some? && sidecarOpens && exists s, l :: l >= 64 && Segment(dng.value, s, l)
    ensures out.Written? ==> exists s, l :: IsBest(dng.value, s, l) && out.bytes == dng.value[s..s + l]
  {
    if dng.None? {
      return NotWritten;
    }
    var d := dng.value;
    var start, len := LargestSegment(d);
    if len < MIN_THUMBNAIL {
      return NotWritten;
    }
    assert IsBest(d, start, len) && Segment(d, start, len);
    if !sidecarOpens {
      return NotWritten;
    }
    out := Written(d[start..start + len]);
  }
}
