/** The stand-alone preview tool: find the first JPEG segment of a DNG and replace it. */
module PreviewEmbed {
  import opened Bytes
  import opened Jpeg
  import opened Options

  const MIN_JPEG: nat := 64

  /** The first start marker, or the length of the buffer. */
  function SoiIndex(d: seq<byte>, from: nat): (i: nat)
    requires from <= |d|
    ensures from <= i <= |d|
    ensures i < |d| ==> Soi(d, i)
    ensures forall k :: from <= k < i ==> !Soi(d, k)
    decreases |d| - from
  {
    if from + 1 >= |d| then |d| else if Soi(d, from) then from else SoiIndex(d, from + 1)
  }

  /** Where the segment that starts before `from` ends: behind the first end marker, or at the end of the buffer. */
  function SegmentEnd(d: seq<byte>, from: nat): (e: nat)
    requires from <= |d|
    ensures from <= e <= |d|
    ensures FirstEoi(d, from, e - 2) || (e == |d| && NoEoi(d, from))
    decreases |d| - from
  {
    if from + 1 >= |d| then |d|
    else if Eoi(d, from) then assert FirstEoi(d, from, from); from + 2
    else
      var e := SegmentEnd(d, from + 1);
      assert FirstEoi(d, from + 1, e - 2) ==> FirstEoi(d, from, e - 2);
      assert NoEoi(d, from + 1) ==> NoEoi(d, from);
      e
  }

  /** Start and length of the first segment, `(0, 0)` when there is no start marker. */
  function Find(d: seq<byte>): (nat, nat) {
    var i := SoiIndex(d, 0);
    if i == |d| then (0, 0) else (i, SegmentEnd(d, i + 2) - i)
  }

  method FindJpeg(d: seq<byte>) returns (start: nat, len: nat)
    ensures (start, len) == Find(d)
    ensures len == 0 ==> start == 0 && forall i :: !Soi(d, i)
    ensures len > 0 ==> Soi(d, start) && forall i :: i < start ==> !Soi(d, i)
    ensures start + len <= |d|
    ensures len > 0 ==> FirstEoi(d, start + 2, start + len - 2) || (start + len == |d| && NoEoi(d, start + 2))
  {
    var i := 0;
    while i + 1 < |d|
      invariant 0 <= i
      invariant i <= |d| && SoiIndex(d, 0) == SoiIndex(d, i)
      decreases |d| - i
    {
      if d[i] == 0xFF && d[i + 1] == 0xD8 {
        var j := i + 2;
        while j + 1 < |d|
          invariant i + 2 <= j <= |d|
          invariant SegmentEnd(d, i + 2) == SegmentEnd(d, j)
          decreases |d| - j
        {
          if d[j] == 0xFF && d[j + 1] == 0xD9 {
            return i, j + 2 - i;
          }
          j := j + 1;
        }
        return i, |d| - i;
      }
      i := i + 1;
    }
    return 0, 0;
  }

  function InsertPoint(d: seq<byte>): nat {
    if Find(d).1 > 0 then Find(d).0 else |d|
  }

  function Tail(d: seq<byte>): seq<byte> {
    if Find(d).1 > 0 then d[Find(d).0 + Find(d).1..] else []
  }

  function Embed(d: seq<byte>, j: seq<byte>): seq<byte> {
    var (start, len) := Find(d);
    if len > 0 then d[..start] + j + d[start + len..] else d + j
  }

  datatype Outcome = MissingDng | InvalidJpeg | UnreadableDng | WriteFailed | Embedded(replaced: bool)

  predicate Accepts(jpeg: seq<byte>) { |jpeg| >= MIN_JPEG && Soi(jpeg, 0) }

  /**
   `main` after argument parsing.  `dng` is what reading the file gives, empty if
   it cannot be read; `after` is what the file holds in the end.
   */
  method EmbedPreview(dng: Option<seq<byte>>, jpeg: seq<byte>, writable: bool)
    returns (r: Outcome, after: Option<seq<byte>>)
    ensures r.MissingDng? <==> dng.None?
    ensures var accepted := |jpeg| >= 64 && jpeg[0] == 0xFF && jpeg[1] == 0xD8;
            && (accepted <==> Accepts(jpeg))
            && (r.InvalidJpeg? <==> dng.Some? && !accepted)
            && (r.UnreadableDng? <==> dng == Some([]) && accepted)
            && (r.Embedded? <==> dng.Some? && accepted && dng.value != [] && writable)
    ensures r.Embedded? ==> (r.replaced <==> exists i :: Soi(dng.value, i))
    ensures after == if r.Embedded? then Some(Embed(dng.value, jpeg)) else dng
    ensures r.Embedded? && !r.replaced ==> after == Some(dng.value + jpeg)
    ensures r.Embedded? && r.replaced ==>
              exists start: nat, len: nat :: (start, len) == Find(dng.value) && start + len <= |dng.value| &&
                after == Some(dng.value[..start] + jpeg + dng.value[start + len..])
  {
    after := dng;
    if dng.None? {
      return MissingDng, after;
    }
    if |jpeg| < MIN_JPEG || jpeg[0] != 0xFF || jpeg[1] != 0xD8 {
      return InvalidJpeg, after;
    }
    if dng.value == [] {
      return UnreadableDng, after;
    }
    var start, len := FindJpeg(dng.value);
    var out: seq<byte> := [];
    var replaced := false;
    if len > 0 {
      out := dng.value[..start];
      out := out + jpeg;
      out := out + dng.value[start + len..];
      replaced := true;
    } else {
      out := dng.value;
      out := out + jpeg;
    }
    if !writable {
      return WriteFailed, after;
    }
    r, after := Embedded(replaced), Some(out);
  }

  // ---------------------------------------------------------------- the lens laws

  /** The first end marker is the last two bytes. */
  ghost predicate Closed(j: seq<byte>) {
    |j| >= 4 && FirstEoi(j, 2, |j| - 2)
  }

  lemma EmbedSplits(d: seq<byte>, j: seq<byte>)
    ensures Embed(d, j) == d[..InsertPoint(d)] + j + Tail(d)
  {
    assert d[..|d|] == d;
  }

  lemma SoiIndexIs(d: seq<byte>, i: nat)
    requires i < |d| && Soi(d, i) && forall k :: 0 <= k < i ==> !Soi(d, k)
    ensures SoiIndex(d, 0) == i
  {
    assert SoiIndex(d, 0) < |d| ==> Soi(d, SoiIndex(d, 0));
  }

  /** Whatever was there before, the embedded JPEG is what the tool finds first. */
  lemma StartAfterEmbed(d: seq<byte>, j: seq<byte>)
    requires Soi(j, 0)
    ensures SoiIndex(Embed(d, j), 0) == InsertPoint(d)
  {
    EmbedSplits(d, j);
    var out, n := Embed(d, j), InsertPoint(d);
    assert out[n] == j[0] && out[n + 1] == j[1];
    forall k | 0 <= k < n ensures !Soi(out, k) {
      assert out[k] == d[k];
      assert k + 1 < n ==> out[k + 1] == d[k + 1];
      assert !Soi(d, k);
    }
    SoiIndexIs(out, n);
  }

  lemma EoiInside(d: seq<byte>, j: seq<byte>, k: nat)
    requires Soi(j, 0)
    ensures Embed(d, j)[InsertPoint(d)..] == j + Tail(d)
    ensures k + 1 < |j| ==> (Eoi(Embed(d, j), InsertPoint(d) + k) <==> Eoi(j, k))
  {
    EmbedSplits(d, j);
  }

  lemma SegmentEndIs(d: seq<byte>, from: nat, e: nat)
    requires from <= |d| && FirstEoi(d, from, e - 2)
    ensures SegmentEnd(d, from) == e
  {
    var e' := SegmentEnd(d, from);
    assert Eoi(d, e - 2);
    assert FirstEoi(d, from, e' - 2) ==> Eoi(d, e' - 2);
  }

  lemma EoisInside(d: seq<byte>, j: seq<byte>)
    requires Soi(j, 0)
    ensures forall k: nat :: k + 1 < |j| ==> (Eoi(Embed(d, j), InsertPoint(d) + k) <==> Eoi(j, k))
  {
    forall k: nat | k + 1 < |j| ensures Eoi(Embed(d, j), InsertPoint(d) + k) <==> Eoi(j, k) {
      EoiInside(d, j, k);
    }
  }

  lemma ClosedStaysClosed(d: seq<byte>, j: seq<byte>)
    requires Soi(j, 0) && Closed(j)
    ensures FirstEoi(Embed(d, j), InsertPoint(d) + 2, InsertPoint(d) + |j| - 2)
  {
    EoisInside(d, j);
    var out, n := Embed(d, j), InsertPoint(d);
    forall k | n + 2 <= k < n + |j| - 2 ensures !Eoi(out, k) {
      var m: nat := k - n;
      assert !Eoi(j, m);
      assert Eoi(out, n + m) <==> Eoi(j, m);
    }
    var last: nat := |j| - 2;
    assert Eoi(j, last) && Eoi(out, n + last);
  }

  lemma ClosedIsFound(d: seq<byte>, j: seq<byte>)
    requires Soi(j, 0) && Closed(j)
    ensures |Embed(d, j)| >= InsertPoint(d) + 2 && SegmentEnd(Embed(d, j), InsertPoint(d) + 2) == InsertPoint(d) + |j|
  {
    ClosedStaysClosed(d, j);
    SegmentEndIs(Embed(d, j), InsertPoint(d) + 2, InsertPoint(d) + |j|);
  }

  lemma UnterminatedAtEnd(d: seq<byte>, j: seq<byte>)
    requires Soi(j, 0) && NoEoi(j, 2) && Tail(d) == []
    ensures |Embed(d, j)| >= InsertPoint(d) + 2 && SegmentEnd(Embed(d, j), InsertPoint(d) + 2) == InsertPoint(d) + |j|
  {
    EmbedSplits(d, j);
    EoisInside(d, j);
    var out, n := Embed(d, j), InsertPoint(d);
    forall k | n + 2 <= k ensures !Eoi(out, k) {
      if k + 1 < |out| {
        var m: nat := k - n;
        assert !Eoi(j, m) && (Eoi(out, n + m) <==> Eoi(j, m));
      }
    }
  }

  lemma FoundIsClosed(d: seq<byte>, j: seq<byte>)
    requires Soi(j, 0) && FirstEoi(Embed(d, j), InsertPoint(d) + 2, InsertPoint(d) + |j| - 2)
    ensures Closed(j)
  {
    EoisInside(d, j);
    var out, n := Embed(d, j), InsertPoint(d);
    forall k: nat | 2 <= k < |j| - 2 ensures !Eoi(j, k) {
      assert !Eoi(out, n + k);
    }
    assert Eoi(out, n + (|j| - 2));
  }

  lemma FoundIsLast(d: seq<byte>, j: seq<byte>)
    requires Soi(j, 0) && |Embed(d, j)| == InsertPoint(d) + |j| && NoEoi(Embed(d, j), InsertPoint(d) + 2)
    ensures NoEoi(j, 2) && Tail(d) == []
  {
    EmbedSplits(d, j);
    EoisInside(d, j);
    forall k: nat | 2 <= k ensures !Eoi(j, k) {
      assert !Eoi(Embed(d, j), InsertPoint(d) + k);
    }
  }

  lemma FoundIsClosedOrLast(d: seq<byte>, j: seq<byte>)
    requires Soi(j, 0)
    requires |Embed(d, j)| >= InsertPoint(d) + 2
    requires SegmentEnd(Embed(d, j), InsertPoint(d) + 2) == InsertPoint(d) + |j|
    ensures Closed(j) || (NoEoi(j, 2) && Tail(d) == [])
  {
    var out, n := Embed(d, j), InsertPoint(d);
    if FirstEoi(out, n + 2, n + |j| - 2) {
      FoundIsClosed(d, j);
    } else {
      FoundIsLast(d, j);
    }
  }

  /**
   Put-get, exactly: after embedding, the tool finds just the embedded bytes, at
   the place it put them, if and only if the JPEG's first end marker is its last
   two bytes, or it has none and nothing follows it.
   */
  lemma PutGet(d: seq<byte>, j: seq<byte>)
    requires Soi(j, 0)
    ensures Find(Embed(d, j)).0 == InsertPoint(d)
    ensures Find(Embed(d, j)).1 == |j| <==> Closed(j) || (NoEoi(j, 2) && Tail(d) == [])
  {
    StartAfterEmbed(d, j);
    EmbedSplits(d, j);
    if Closed(j) {
      ClosedIsFound(d, j);
    } else if NoEoi(j, 2) && Tail(d) == [] {
      UnterminatedAtEnd(d, j);
    } else if Find(Embed(d, j)).1 == |j| {
      FoundIsClosedOrLast(d, j);
    }
  }

  /** Embedding into a file that begins with the embedded `j1`, whatever length is found for it. */
  lemma EmbedAgain(d: seq<byte>, j1: seq<byte>, j2: seq<byte>)
    requires Soi(j1, 0)
    ensures var mid, n := Embed(d, j1), InsertPoint(d);
            var len := Find(mid).1;
            && len > 0 && n + len <= |mid|
            && Embed(mid, j2) == d[..n] + j2 + mid[n + len..]
  {
    StartAfterEmbed(d, j1);
    EmbedSplits(d, j1);
    assert Embed(d, j1)[..InsertPoint(d)] == d[..InsertPoint(d)];
  }

  /** Put-put: the second embedding forgets the first, exactly when the first can be found again. */
  lemma PutPut(d: seq<byte>, j1: seq<byte>, j2: seq<byte>)
    requires Soi(j1, 0)
    ensures Embed(Embed(d, j1), j2) == Embed(d, j2) <==> Closed(j1) || (NoEoi(j1, 2) && Tail(d) == [])
  {
    PutGet(d, j1);
    EmbedAgain(d, j1, j2);
    EmbedSplits(d, j1);
    EmbedSplits(d, j2);
    var mid, n := Embed(d, j1), InsertPoint(d);
    var len := Find(mid).1;
    if len == |j1| {
      assert mid[n + len..] == Tail(d);
    } else {
      assert |mid| == n + |j1| + |Tail(d)|;
      assert |Embed(mid, j2)| != |Embed(d, j2)|;
    }
  }

  /** Get-put: embedding what was found changes nothing; the tool accepts it unless it is shorter than 64 bytes. */
  lemma GetPut(d: seq<byte>)
    requires exists i :: Soi(d, i)
    ensures var (start, len) := Find(d);
            && len > 0 && start + len <= |d|
            && (Accepts(d[start..start + len]) <==> len >= MIN_JPEG)
            && Embed(d, d[start..start + len]) == d
  {
    var (start, len) := Find(d);
    var i :| Soi(d, i);
    assert SoiIndex(d, 0) <= i;
    assert Soi(d[start..start + len], 0) <==> Soi(d, start);
    assert d == d[..start] + d[start..start + len] + d[start + len..];
  }
}
