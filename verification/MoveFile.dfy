/** `move_file`: rename, or copy across devices and then delete. */
module MoveFile {
  import opened Bytes

  type Path = string
  type Files = map<Path, seq<byte>>

  /** What the system calls of one move answer; `copies` are the successive results of `copy_file_range`. */
  datatype Answers = Answers(
    rename: bool, openSource: bool, fstat: bool, openTarget: bool,
    copies: seq<int>, copyFile: bool, partial: seq<byte>, remove: bool)

  /** The `k`-th copy, which never moves more than what is left and fails once the answers run out. */
  function Chunk(copies: seq<int>, k: nat, left: nat): int {
    if k >= |copies| then 0 else if copies[k] > left then left else copies[k]
  }

  function Rename(fs: Files, from: Path, to: Path): Files
    requires from in fs
  {
    if from == to then fs else fs[to := fs[from]] - {from}
  }

  /** Where the copy loop stops. */
  function CopiedUpTo(size: nat, available: nat, offset: nat, copies: seq<int>, k: nat): (end: nat)
    requires offset <= available <= size
    ensures offset <= end <= available
    decreases size - offset
  {
    if offset >= size then offset
    else
      var n := Chunk(copies, k, available - offset);
      if n <= 0 then offset else CopiedUpTo(size, available, offset + n, copies, k + 1)
  }

  /** The files and the result after a move. */
  function Moved(fs: Files, from: Path, to: Path, a: Answers): (Files, bool) {
    if from !in fs then (fs, false)
    else if a.rename then (Rename(fs, from, to), true)
    else if !a.openSource || !a.fstat || !a.openTarget then (fs, false)
    else
      var size := |fs[from]|;
      var source := fs[to := []][from];
      var end := CopiedUpTo(size, |source|, 0, a.copies, 0);
      var copied := fs[to := source[..end]];
      if end == size then (if a.remove then copied - {from} else copied, a.remove)
      else if from == to then (copied, false)
      else if !a.copyFile then (copied[to := a.partial], false)
      else
        var whole := copied[to := fs[from]];
        (if a.remove then whole - {from} else whole, a.remove)
  }

  class FileSystem {
    var files: Files

    method Move(from: Path, to: Path, a: Answers) returns (ok: bool)
      modifies this
      ensures (files, ok) == Moved(old(files), from, to, a)
    {
      if from in files && a.rename {
        files := Rename(files, from, to);
        return true;
      }
      if from !in files || !a.openSource {
        return false;
      }
      if !a.fstat {
        return false;
      }
      var size := |files[from]|;
      if !a.openTarget {
        return false;
      }
      files := files[to := []];
      var offset, copied, k := 0, 0, 0;
      ghost var source := files[from];
      while offset < size
        invariant copied == offset <= size
        invariant offset <= |source|
        invariant from != to ==> files == old(files)[to := source[..offset]]
        invariant from == to ==> source == [] && offset == 0 && files == old(files)[to := []]
        invariant from in files && files[from] == source
        invariant CopiedUpTo(size, |source|, 0, a.copies, 0) == CopiedUpTo(size, |source|, offset, a.copies, k)
        decreases size - offset
      {
        var n := Chunk(a.copies, k, |files[from]| - offset);
        if n <= 0 {
          break;
        }
        assert source[..offset] + source[offset..offset + n] == source[..offset + n];
        files := files[to := files[to] + files[from][offset..offset + n]];
        offset := offset + n;
        copied := copied + n;
        k := k + 1;
      }
      assert offset == CopiedUpTo(size, |source|, 0, a.copies, 0);
      if copied == size {
        if a.remove {
          files := files - {from};
        }
        return a.remove;
      }
      if from == to {
        return false;
      }
      if !a.copyFile {
        files := files[to := a.partial];
        return false;
      }
      files := files[to := files[from]];
      if a.remove {
        files := files - {from};
      }
      ok := a.remove;
    }
  }

  /** The moved bytes are still at one of the two paths. */
  predicate Kept(before: Files, after: Files, from: Path, to: Path)
    requires from in before
  {
    (from in after && after[from] == before[from]) || (to in after && after[to] == before[from])
  }

  /** The target has been opened, and with it truncated. */
  predicate Truncates(a: Answers) {
    !a.rename && a.openSource && a.fstat && a.openTarget
  }

  /** Between distinct paths nothing is lost: `true` means only at the target, `false` means still at the source. */
  lemma DistinctMove(fs: Files, from: Path, to: Path, a: Answers)
    requires from in fs && from != to
    ensures var (after, ok) := Moved(fs, from, to, a);
            && (ok ==> from !in after && to in after && after[to] == fs[from])
            && (!ok ==> from in after && after[from] == fs[from])
            && (forall p :: p != from && p != to ==> (p in after <==> p in fs) && (p in fs ==> after[p] == fs[p]))
  {
    var source := fs[from];
    assert source[..|source|] == source;
  }

  /**
   The moved bytes survive exactly when the paths differ, the target was never
   truncated, or there was nothing to lose.
   */
  lemma MoveKeepsContent(fs: Files, from: Path, to: Path, a: Answers)
    requires from in fs
    ensures Kept(fs, Moved(fs, from, to, a).0, from, to) <==>
              from != to || !Truncates(a) || (fs[from] == [] && !a.remove)
  {
    if from != to {
      DistinctMove(fs, from, to, a);
    }
  }

  // ---------------------------------------------------------------- when a move succeeds

  function Sum(copies: seq<int>, i: nat, k: nat): int
    requires k <= |copies|
    decreases k - i
  {
    if i >= k then 0 else copies[i] + Sum(copies, i + 1, k)
  }

  /** From the `i`-th answer on, an unbroken run of positive ones adds up to what is left. */
  ghost predicate CopiesReach(copies: seq<int>, i: nat, left: int) {
    exists k: nat :: i <= k <= |copies| && (forall j :: i <= j < k ==> copies[j] > 0) && Sum(copies, i, k) >= left
  }

  lemma ReachOneMore(copies: seq<int>, i: nat, left: int)
    requires i < |copies| && copies[i] > 0 && left > 0
    ensures CopiesReach(copies, i, left) <==> CopiesReach(copies, i + 1, left - copies[i])
  {
    if CopiesReach(copies, i, left) {
      var k: nat :| i <= k <= |copies| && (forall j :: i <= j < k ==> copies[j] > 0) && Sum(copies, i, k) >= left;
      assert Sum(copies, i + 1, k) >= left - copies[i];
    }
    if CopiesReach(copies, i + 1, left - copies[i]) {
      var k: nat :| i + 1 <= k <= |copies| && (forall j :: i + 1 <= j < k ==> copies[j] > 0) &&
                    Sum(copies, i + 1, k) >= left - copies[i];
      assert Sum(copies, i, k) >= left;
    }
  }

  lemma ReachedAlready(copies: seq<int>, i: nat, left: int)
    requires left <= 0 && i <= |copies|
    ensures CopiesReach(copies, i, left)
  {
    assert Sum(copies, i, i) == 0;
  }

  lemma StuckNeverReaches(copies: seq<int>, i: nat, left: int)
    requires left > 0 && (i >= |copies| || copies[i] <= 0)
    ensures !CopiesReach(copies, i, left)
  {
    forall k: nat | i <= k <= |copies| && (forall j :: i <= j < k ==> copies[j] > 0) ensures Sum(copies, i, k) < left {
    }
  }

  /** The copy loop gets to the end exactly when the answers of the system reach that far. */
  lemma {:induction false} LoopReaches(size: nat, offset: nat, copies: seq<int>, i: nat)
    requires offset <= size && i <= |copies|
    ensures CopiedUpTo(size, size, offset, copies, i) == size <==> CopiesReach(copies, i, size - offset)
    decreases size - offset
  {
    if offset == size {
      ReachedAlready(copies, i, 0);
    } else if i >= |copies| || copies[i] <= 0 {
      StuckNeverReaches(copies, i, size - offset);
    } else {
      ReachOneMore(copies, i, size - offset);
      if copies[i] > size - offset {
        ReachedAlready(copies, i + 1, size - offset - copies[i]);
      } else {
        LoopReaches(size, offset + copies[i], copies, i + 1);
      }
    }
  }

  /**
   When a move succeeds, answer by answer: the file can be renamed; or both files
   can be opened, the content gets across by the loop or by the fallback, and the
   source can be removed.  A path moved onto itself gets across only if empty.
   */
  lemma MoveSucceedsExactly(fs: Files, from: Path, to: Path, a: Answers)
    ensures Moved(fs, from, to, a).1 <==>
              from in fs &&
              (a.rename ||
               (a.openSource && a.fstat && a.openTarget && a.remove &&
                (if from == to then fs[from] == [] else CopiesReach(a.copies, 0, |fs[from]|) || a.copyFile)))
    ensures from !in fs ==> Moved(fs, from, to, a).0 == fs
  {
    if from in fs && from != to {
      LoopReaches(|fs[from]|, 0, a.copies, 0);
    }
  }
}
