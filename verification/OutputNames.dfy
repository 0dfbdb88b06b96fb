/** Output paths built from sequence numbers never clash with each other or with the library. */
module OutputNames {
  import opened Decimal
  import opened Options
  import opened Sequence

  function FileName(id: nat): string { Name(id) + ".dng" }

  /** Where a worker writes the converted image. */
  function OutputPath(outputDir: string, folder: string, id: nat): string {
    outputDir + "/" + folder + "/" + Name(id) + ".dng"
  }

  lemma {:induction false} BasenameBehindSlash(dir: string, name: string)
    requires '/' !in name
    ensures Basename(dir + "/" + name) == name
    decreases |name|
  {
    var p := dir + "/" + name;
    if name == "" {
      assert p[|p| - 1] == '/';
    } else {
      var init, last := name[..|name| - 1], name[|name| - 1];
      assert p[|p| - 1] == last && p[..|p| - 1] == dir + "/" + init;
      assert last in name;
      BasenameBehindSlash(dir, init);
    }
  }

  lemma {:induction false} BasenameFold(p: string)
    ensures Basename(Fold(p)) == Fold(Basename(p))
    decreases |p|
  {
    if p == "" {
    } else {
      var f := Fold(p);
      assert f[..|f| - 1] == Fold(p[..|p| - 1]);
      BasenameFold(p[..|p| - 1]);
      if p[|p| - 1] != '/' {
        assert FoldChar(p[|p| - 1]) != '/';
        assert Fold(Basename(p[..|p| - 1]) + [p[|p| - 1]]) == Fold(Basename(p[..|p| - 1])) + [FoldChar(p[|p| - 1])];
      }
    }
  }

  lemma OutputBasename(outputDir: string, folder: string, id: nat)
    ensures Basename(OutputPath(outputDir, folder, id)) == FileName(id)
  {
    var name := FileName(id);
    assert OutputPath(outputDir, folder, id) == (outputDir + "/" + folder) + "/" + name;
    assert '/' !in PrintNat(id);
    BasenameBehindSlash(outputDir + "/" + folder, name);
  }

  /** The output lies in the folder below the output directory, under the name of its number. */
  lemma OutputParts(outputDir: string, folder: string, id: nat)
    ensures var path := OutputPath(outputDir, folder, id);
            var name := "IMG_" + PrintNat(id) + ".dng";
            && Basename(path) == name && |path| > |name|
            && path[..|path| - |name| - 1] == outputDir + "/" + folder
  {
    OutputBasename(outputDir, folder, id);
    assert OutputPath(outputDir, folder, id) == (outputDir + "/" + folder) + "/" + FileName(id);
  }

  lemma FileNameIsImage(id: nat)
    requires id <= INT64_MAX
    ensures ImageNumber(FileName(id)) == Some(id)
  {
    var name := FileName(id);
    assert name[..4] == "IMG_" && Fold("IMG_") == "img_";
    assert name[|name| - 4..] == ".dng" && Fold(".dng") == ".dng";
    assert name[4..|name| - 4] == PrintNat(id);
    ReadPrint(id);
  }

  /** Whether a name is an image name, and its number, do not depend on letter case. */
  lemma ImageNumberIgnoresCase(a: string, b: string)
    requires Fold(a) == Fold(b)
    ensures ImageNumber(a) == ImageNumber(b)
  {
    assert |a| == |Fold(a)| && |b| == |Fold(b)|;
    if |a| > 8 {
      assert Fold(a[..4]) == Fold(a)[..4] && Fold(b[..4]) == Fold(b)[..4];
      assert Fold(a[|a| - 4..]) == Fold(a)[|a| - 4..] && Fold(b[|b| - 4..]) == Fold(b)[|b| - 4..];
      forall i | 4 <= i < |a| - 4 ensures IsDigit(a[i]) <==> IsDigit(b[i])
                                ensures IsDigit(a[i]) ==> a[i] == b[i] {
        assert Fold(a)[i] == Fold(b)[i];
      }
      if AllDigits(a[4..|a| - 4]) || AllDigits(b[4..|b| - 4]) {
        SameDigits(a[4..|a| - 4], b[4..|b| - 4]);
      }
    }
  }

  lemma SameDigits(x: string, y: string)
    requires |x| == |y| && (AllDigits(x) || AllDigits(y))
    requires forall i :: 0 <= i < |x| ==> (IsDigit(x[i]) <==> IsDigit(y[i])) && (IsDigit(x[i]) ==> x[i] == y[i])
    ensures x == y
  {
  }

  /** Different numbers give different paths, whatever the folders and whatever the case of letters. */
  lemma OutputsDiffer(outputDir: string, f1: string, f2: string, m: nat, n: nat)
    requires m != n
    ensures Fold(OutputPath(outputDir, f1, m)) != Fold(OutputPath(outputDir, f2, n))
  {
    if Fold(OutputPath(outputDir, f1, m)) == Fold(OutputPath(outputDir, f2, n)) {
      BasenameFold(OutputPath(outputDir, f1, m));
      BasenameFold(OutputPath(outputDir, f2, n));
      OutputBasename(outputDir, f1, m);
      OutputBasename(outputDir, f2, n);
      FoldedNamesDiffer(m, n);
    }
  }

  lemma FoldedNamesDiffer(m: nat, n: nat)
    requires Fold(FileName(m)) == Fold(FileName(n))
    ensures m == n
  {
    var x, y := FileName(m), FileName(n);
    assert |x| == |Fold(x)| == |y|;
    forall i | 0 <= i < |PrintNat(m)| ensures PrintNat(m)[i] == PrintNat(n)[i] {
      assert x[4 + i] == PrintNat(m)[i] && y[4 + i] == PrintNat(n)[i];
      assert Fold(x)[4 + i] == Fold(y)[4 + i];
      assert IsDigit(PrintNat(m)[i]) && IsDigit(PrintNat(n)[i]);
    }
    PrintIsInjective(m, n);
  }

  /** A number above everything found in the library gives a path that is not in the library. */
  lemma OutputIsNew(outputDir: string, folder: string, id: nat, library: seq<string>, i: nat)
    requires i < |library|
    requires MaxNumber(Basenames(library)) < id <= INT64_MAX
    ensures Fold(OutputPath(outputDir, folder, id)) != Fold(library[i])
  {
    var p := OutputPath(outputDir, folder, id);
    if Fold(p) == Fold(library[i]) {
      BasenameFold(p);
      BasenameFold(library[i]);
      OutputBasename(outputDir, folder, id);
      ImageNumberIgnoresCase(FileName(id), Basename(library[i]));
      FileNameIsImage(id);
      MaxNumberBounds(Basenames(library), i);
    }
  }

  // ---------------------------------------------------------------- all later allocations

  /** The ids that successive allocations give out, in the order in which the table serves the workers. */
  function Issued(t: Table, answers: seq<Answer>): seq<nat>
    decreases |answers|
  {
    if answers == [] then []
    else
      var (t', id) := Allocated(t, answers[0]);
      (if answers[0].fault == NoFault then [id] else []) + Issued(t', answers[1..])
  }

  lemma {:induction false} IssuedIncrease(t: Table, answers: seq<Answer>)
    ensures forall i :: 0 <= i < |Issued(t, answers)| ==> t.next <= Issued(t, answers)[i]
    ensures forall i, j :: 0 <= i < j < |Issued(t, answers)| ==> Issued(t, answers)[i] < Issued(t, answers)[j]
    decreases |answers|
  {
    if answers == [] {
    } else {
      IssuedIncrease(Allocated(t, answers[0]).0, answers[1..]);
    }
  }

  /**
   End to end: once the counter is past every number in the library, every path
   any worker is given later, in whatever folder, is new to the library and
   different from every other one.
   */
  lemma NoOutputCollides(t: Table, answers: seq<Answer>, library: seq<string>, outputDir: string,
                         folders: seq<string>, i: nat)
    requires MaxNumber(Basenames(library)) < t.next
    requires |folders| == |Issued(t, answers)| && i < |folders| && Issued(t, answers)[i] <= INT64_MAX
    ensures var path := Fold(OutputPath(outputDir, folders[i], Issued(t, answers)[i]));
            && (forall k :: 0 <= k < |library| ==> path != Fold(library[k]))
            && (forall j :: 0 <= j < |folders| && j != i ==>
                  path != Fold(OutputPath(outputDir, folders[j], Issued(t, answers)[j])))
  {
    IssuedIncrease(t, answers);
    var id := Issued(t, answers)[i];
    forall k | 0 <= k < |library| ensures Fold(OutputPath(outputDir, folders[i], id)) != Fold(library[k]) {
      OutputIsNew(outputDir, folders[i], id, library, k);
    }
    forall j | 0 <= j < |folders| && j != i
      ensures Fold(OutputPath(outputDir, folders[i], id)) !=
              Fold(OutputPath(outputDir, folders[j], Issued(t, answers)[j]))
    {
      OutputsDiffer(outputDir, folders[i], folders[j], id, Issued(t, answers)[j]);
    }
  }

  /** The reservation is needed: a counter at or below the highest number found runs into that file. */
  lemma UnreservedCollides(t: Table, library: seq<string>, outputDir: string, folder: string, n: nat)
    returns (answers: seq<Answer>)
    requires n >= t.next && library == [OutputPath(outputDir, folder, n)]
    ensures Issued(t, answers) == [n] && OutputPath(outputDir, folder, n) in library
  {
    answers := [Answer(true, true, n - t.next, NoFault)];
    assert answers[1..] == [];
  }
}
