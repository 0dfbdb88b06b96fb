/** Sequence numbers from allocation to output name: the table, the start-up reservation, the paths. */
module Sequence {
  import opened Decimal
  import opened Options

  const INT64_MAX: nat := 0x7FFF_FFFF_FFFF_FFFF

  // ---------------------------------------------------------------- the table

  /** Rows by id; `next` is the smallest id AUTO_INCREMENT may still give out. */
  datatype Table = Table(rows: map<nat, string>, next: nat)

  /** Where one allocation breaks off, if it does. */
  datatype Fault = NoFault | BeforeInsert | AfterInsert

  /** The database's answers: whether the clean-up deletes ran, how far the counter jumped, what failed. */
  datatype Answer = Answer(emptyDeleted: bool, tmpDeleted: bool, gap: nat, fault: Fault)

  function FoldChar(c: char): char {
    if 'A' <= c <= 'Z' then c - 'A' + 'a' else c
  }

  function Fold(s: string): (r: string)
    ensures |r| == |s| && forall i :: 0 <= i < |s| ==> r[i] == FoldChar(s[i])
  {
    seq(|s|, i requires 0 <= i < |s| => FoldChar(s[i]))
  }

  /** SQL `LIKE` under a case-insensitive collation: `%` any run, `_` any character. */
  predicate Like(s: string, pattern: string)
    decreases |s| + |pattern|
  {
    if pattern == "" then s == ""
    else if pattern[0] == '%' then Like(s, pattern[1..]) || (s != "" && Like(s[1..], pattern))
    else s != "" && (pattern[0] == '_' || FoldChar(pattern[0]) == FoldChar(s[0])) && Like(s[1..], pattern[1..])
  }

  function Name(id: nat): string { "IMG_" + PrintNat(id) }

  predicate IsLeftover(name: string, a: Answer) {
    (a.emptyDeleted && name == "") || (a.tmpDeleted && Like(name, "TMP_%"))
  }

  function Cleaned(rows: map<nat, string>, a: Answer): map<nat, string> {
    map id | id in rows && !IsLeftover(rows[id], a) :: rows[id]
  }

  /** One allocation; the counter moves on even when the transaction rolls back. Id 0 reports failure. */
  function Allocated(t: Table, a: Answer): (Table, nat) {
    var rows := Cleaned(t.rows, a);
    var id := t.next + a.gap;
    match a.fault
    case BeforeInsert => (Table(rows, t.next), 0)
    case AfterInsert => (Table(rows, id + 1), 0)
    case NoFault => (Table(rows[id := Name(id)], id + 1), id)
  }

  /** The two deletes one after the other. */
  lemma CleanedInTwo(rows: map<nat, string>, left: map<nat, string>, a: Answer)
    requires left.Keys <= rows.Keys && forall id :: id in left ==> left[id] == rows[id]
    requires forall id :: id in rows ==> (id in left <==> !IsLeftover(rows[id], a))
    ensures left == Cleaned(rows, a)
  {
  }

  lemma NamesAreNotLeftovers(id: nat, a: Answer)
    ensures !IsLeftover(Name(id), a)
  {
    assert Name(id)[0] == 'I';
  }

  lemma {:induction false} LikeAnything(s: string)
    ensures Like(s, "%")
    decreases |s|
  {
    assert "%"[1..] == "";
    if s == "" {
    } else {
      LikeAnything(s[1..]);
    }
  }

  predicate Matches(c: char, x: char) { c == '_' || FoldChar(c) == FoldChar(x) }

  lemma LikeOne(s: string, c: char, rest: string)
    requires c != '%'
    ensures Like(s, [c] + rest) <==> s != "" && Matches(c, s[0]) && Like(s[1..], rest)
  {
    assert ([c] + rest)[1..] == rest;
  }

  lemma LikeTwo(s: string, c: char, d: char, rest: string)
    requires c != '%' && d != '%'
    ensures Like(s, [c] + ([d] + rest)) <==>
              |s| >= 2 && Matches(c, s[0]) && Matches(d, s[1]) && Like(s[2..], rest)
  {
    LikeOne(s, c, [d] + rest);
    if s != "" {
      LikeOne(s[1..], d, rest);
      assert |s| >= 2 ==> s[1..][1..] == s[2..];
    }
  }

  lemma LikeFour(s: string, a: char, b: char, c: char, d: char, rest: string)
    requires a != '%' && b != '%' && c != '%' && d != '%'
    ensures Like(s, [a] + ([b] + ([c] + ([d] + rest)))) <==>
              |s| >= 4 && Matches(a, s[0]) && Matches(b, s[1]) && Matches(c, s[2]) && Matches(d, s[3]) &&
              Like(s[4..], rest)
  {
    LikeTwo(s, a, b, [c] + ([d] + rest));
    if |s| >= 2 {
      LikeTwo(s[2..], c, d, rest);
      assert |s| >= 4 ==> s[2..][2..] == s[4..];
    }
  }

  lemma StartsWithTmp(s: string)
    requires |s| >= 4
    ensures Fold(s[..3]) == "tmp" <==> Matches('T', s[0]) && Matches('M', s[1]) && Matches('P', s[2])
  {
    assert Fold(s[..3]) == [FoldChar(s[0]), FoldChar(s[1]), FoldChar(s[2])];
  }

  /** The pattern of the second delete: `tmp` in any case, at least one more character, and anything. */
  lemma LikeTmp(s: string, pattern: string)
    requires pattern == "TMP_%"
    ensures Like(s, pattern) <==> |s| >= 4 && Fold(s[..3]) == "tmp"
  {
    assert pattern == ['T'] + (['M'] + (['P'] + (['_'] + "%")));
    LikeFour(s, 'T', 'M', 'P', '_', "%");
    if |s| >= 4 {
      LikeAnything(s[4..]);
      StartsWithTmp(s);
    }
  }

  /**
   On any table: an allocation keeps every row but the left-overs it deletes and
   adds the row it reports, named after its id; a failed one adds nothing.
   */
  lemma AllocationOnAnyTable(t: Table, a: Answer, k: nat)
    ensures var (t', id) := Allocated(t, a);
            var deleted := k in t.rows && ((a.emptyDeleted && t.rows[k] == "") ||
                             (a.tmpDeleted && |t.rows[k]| >= 4 && Fold(t.rows[k][..3]) == "tmp"));
            && (a.fault != NoFault ==> id == 0 && (k in t'.rows <==> k in t.rows && !deleted))
            && (a.fault == NoFault ==>
                  && id >= t.next && t'.next == id + 1
                  && id in t'.rows && t'.rows[id] == "IMG_" + PrintNat(id)
                  && (k != id ==> (k in t'.rows <==> k in t.rows && !deleted)))
            && (k in t'.rows && (a.fault == NoFault ==> k != id) ==> t'.rows[k] == t.rows[k])
  {
    if k in t.rows {
      LikeTmp(t.rows[k], "TMP_%");
    }
  }

  /** The clean-up deletes never remove a row that names an image. */
  lemma CleanupKeepsImages(t: Table, a: Answer, id: nat)
    requires id in t.rows && t.rows[id] == Name(id) && id < t.next
    ensures id in Allocated(t, a).0.rows && Allocated(t, a).0.rows[id] == Name(id)
  {
    NamesAreNotLeftovers(id, a);
  }

  /** Every row names its own image and lies below the counter. */
  ghost predicate Consistent(t: Table) {
    forall id :: id in t.rows ==> id < t.next && t.rows[id] == Name(id)
  }

  /**
   On a consistent table an allocation adds at most the one row it reports, under
   an unused id and a name no other row has; a failed one adds and removes nothing.
   */
  lemma AllocationAddsOneRow(t: Table, a: Answer)
    requires Consistent(t) && t.next >= 1
    ensures var (t', id) := Allocated(t, a);
            && Consistent(t') && t.next <= t'.next
            && (id == 0 <==> a.fault != NoFault)
            && t'.rows == (if id == 0 then t.rows else t.rows[id := Name(id)])
            && (id != 0 ==> t.next <= id < t'.next && forall k :: k in t.rows ==> t.rows[k] != Name(id))
  {
    forall id | id in t.rows ensures !IsLeftover(t.rows[id], a) {
      NamesAreNotLeftovers(id, a);
    }
    assert Cleaned(t.rows, a) == t.rows;
    var id := t.next + a.gap;
    forall k | k in t.rows ensures t.rows[k] != Name(id) {
      if Name(k) == Name(id) {
        assert Name(k)[4..] == PrintNat(k) && Name(id)[4..] == PrintNat(id);
        PrintIsInjective(k, id);
      }
    }
  }

  // ---------------------------------------------------------------- file names

  predicate IsImageName(name: string) {
    |name| > 8 && Fold(name[..4]) == "img_" && Fold(name[|name| - 4..]) == ".dng" && AllDigits(name[4..|name| - 4])
  }

  /** The part behind the last slash. */
  function Basename(p: string): string
  {
    if p == "" || p[|p| - 1] == '/' then "" else Basename(p[..|p| - 1]) + [p[|p| - 1]]
  }

  function Basenames(paths: seq<string>): seq<string> {
    seq(|paths|, i requires 0 <= i < |paths| => Basename(paths[i]))
  }

  /** `strtoll` saturates. */
  function Clamp(n: nat): nat { if n > INT64_MAX then INT64_MAX else n }

  /** The number in a name that matches `^IMG_(\d+)\.dng$` ignoring case. */
  function ImageNumber(name: string): Option<nat> {
    if IsImageName(name) then Some(Clamp(ReadNat(name[4..|name| - 4]))) else None
  }

  function MaxNumber(names: seq<string>): nat {
    if names == [] then 0
    else
      var m := MaxNumber(names[..|names| - 1]);
      match ImageNumber(names[|names| - 1])
      case None => m
      case Some(n) => if n > m then n else m
  }

  lemma {:induction false} MaxNumberBounds(names: seq<string>, i: nat)
    requires i < |names| && ImageNumber(names[i]).Some?
    ensures ImageNumber(names[i]).value <= MaxNumber(names)
  {
    if i == |names| - 1 {
    } else {
      MaxNumberBounds(names[..|names| - 1], i);
    }
  }

  /** The result of the scan is one of the numbers found, or zero if there is none. */
  lemma {:induction false} MaxNumberIsAttained(names: seq<string>)
    ensures MaxNumber(names) == 0 || exists i :: 0 <= i < |names| && ImageNumber(names[i]) == Some(MaxNumber(names))
    decreases |names|
  {
    if names == [] {
    } else {
      var n := |names| - 1;
      MaxNumberIsAttained(names[..n]);
      if MaxNumber(names) == MaxNumber(names[..n]) && MaxNumber(names) != 0 {
        var i :| 0 <= i < n && ImageNumber(names[..n][i]) == Some(MaxNumber(names[..n]));
        assert names[i] == names[..n][i];
      }
    }
  }

  /** A name counts exactly when it is `IMG_`, decimal digits and `.dng` in any case, and for the number they denote. */
  lemma ImageNumberExactly(name: string, n: nat)
    ensures ImageNumber(name) == Some(n) <==>
              exists prefix: string, digits: string, suffix: string ::
                name == prefix + digits + suffix && Fold(prefix) == "img_" && Fold(suffix) == ".dng" &&
                digits != "" && AllDigits(digits) &&
                n == (if ReadNat(digits) > 0x7FFF_FFFF_FFFF_FFFF then 0x7FFF_FFFF_FFFF_FFFF else ReadNat(digits))
  {
    if ImageNumber(name) == Some(n) {
      assert name == name[..4] + name[4..|name| - 4] + name[|name| - 4..];
    }
    forall prefix: string, digits: string, suffix: string |
      name == prefix + digits + suffix && Fold(prefix) == "img_" && Fold(suffix) == ".dng" &&
      digits != "" && AllDigits(digits)
      ensures ImageNumber(name) == Some(Clamp(ReadNat(digits)))
    {
      assert |prefix| == |Fold(prefix)| == 4 && |suffix| == |Fold(suffix)| == 4;
      assert name[..4] == prefix && name[4..|name| - 4] == digits && name[|name| - 4..] == suffix;
    }
  }

  /** The import row that stands for a file found in the library. */
  datatype Placeholder = Placeholder(number: nat, name: string, path: string)

  /** The rows the scan writes: one per image that is no known source path and whose insert succeeds. */
  function Placeholders(library: seq<string>, known: set<string>, inserts: string -> bool): seq<Placeholder> {
    if library == [] then []
    else
      var path := library[|library| - 1];
      var earlier := Placeholders(library[..|library| - 1], known, inserts);
      match ImageNumber(Basename(path))
      case None => earlier
      case Some(n) => if path in known || !inserts(path) then earlier else earlier + [Placeholder(n, Name(n), path)]
  }

  /** Each row stands for an image of the library under its own number, no larger than the greatest one. */
  lemma {:induction false} PlaceholdersAreFound(library: seq<string>, known: set<string>, inserts: string -> bool,
                                                row: Placeholder)
    ensures row in Placeholders(library, known, inserts) <==>
              && row.path in library && row.path !in known && inserts(row.path)
              && ImageNumber(Basename(row.path)) == Some(row.number) && row.name == Name(row.number)
    ensures row in Placeholders(library, known, inserts) ==> row.number <= MaxNumber(Basenames(library))
    decreases |library|
  {
    if library == [] {
    } else {
      var n := |library| - 1;
      assert library == library[..n] + [library[n]];
      assert Basenames(library)[..n] == Basenames(library[..n]);
      PlaceholdersAreFound(library[..n], known, inserts, row);
    }
  }

  // ---------------------------------------------------------------- the objects

  class SequenceTable {
    var rows: map<nat, string>
    var next: nat

    ghost function View(): Table
      reads this
    {
      Table(rows, next)
    }

    constructor ()
      ensures View() == Table(map[], 1)
    {
      rows, next := map[], 1;
    }

    method AllocateSequence(tmp: string, a: Answer) returns (id: nat, name: string)
      modifies this
      ensures View() == Allocated(old(View()), a).0 && id == Allocated(old(View()), a).1
      ensures name == if a.fault == NoFault then "IMG_" + PrintNat(id) else ""
    {
      if a.emptyDeleted {
        rows := map k | k in rows && rows[k] != "" :: rows[k];
      }
      if a.tmpDeleted {
        rows := map k | k in rows && !Like(rows[k], "TMP_%") :: rows[k];
      }
      CleanedInTwo(old(rows), rows, a);
      if a.fault == BeforeInsert {
        return 0, "";
      }
      id := next + a.gap;
      next := id + 1;
      if a.fault == AfterInsert {
        return 0, "";
      }
      var staged := rows[id := tmp];
      name := "IMG_" + PrintNat(id);
      rows := staged[id := name];
    }

    /** Scan the library, then push the counter past every number found. */
    method ReconcileLibrary(library: seq<string>, known: set<string>, inserts: string -> bool,
                            tmp: string, answers: nat -> Answer)
      returns (maxN: nat, inserted: seq<Placeholder>, failed: bool)
      requires next >= 1
      modifies this
      ensures maxN == MaxNumber(Basenames(library))
      ensures inserted == Placeholders(library, known, inserts)
      ensures failed ==> exists k: nat :: answers(k).fault != NoFault
      ensures !failed ==> next > maxN
      ensures next >= old(next)
      ensures KeepsImages(old(View()), View())
    {
      maxN, inserted := ScanLibrary(library, known, inserts);
      failed := Reserve(maxN, tmp, answers);
    }

    static method ScanLibrary(library: seq<string>, known: set<string>, inserts: string -> bool)
      returns (maxN: nat, inserted: seq<Placeholder>)
      ensures maxN == MaxNumber(Basenames(library))
      ensures inserted == Placeholders(library, known, inserts)
    {
      maxN, inserted := 0, [];
      ghost var names := Basenames(library);
      for i := 0 to |library|
        invariant maxN == MaxNumber(names[..i])
        invariant inserted == Placeholders(library[..i], known, inserts)
      {
        assert names[..i + 1][..i] == names[..i] && library[..i + 1][..i] == library[..i];
        var found := ImageNumber(Basename(library[i]));
        if found.Some? {
          if found.value > maxN {
            maxN := found.value;
          }
          if library[i] !in known && inserts(library[i]) {
            inserted := inserted + [Placeholder(found.value, Name(found.value), library[i])];
          }
        }
      }
      assert names[..|names|] == names && library[..|library|] == library;
    }

    /** The reservation loop; reports whether an allocation failed. */
    method Reserve(maxN: nat, tmp: string, answers: nat -> Answer) returns (failed: bool)
      requires next >= 1
      modifies this
      ensures failed ==> exists k: nat :: answers(k).fault != NoFault
      ensures !failed ==> next > maxN
      ensures KeepsImages(old(View()), View())
      ensures maxN == 0 ==> !failed && View() == old(View())
      ensures maxN > 0 && (forall k: nat :: answers(k).fault == NoFault && answers(k).gap == 0) ==>
                next == (if old(next) > maxN then old(next) else maxN) + 1
    {
      failed := false;
      if maxN > 0 {
        var i := 0;
        while i < maxN
          invariant 0 <= i <= maxN
          invariant next >= i + 1
          invariant KeepsImages(old(View()), View())
          invariant (forall k: nat :: answers(k).fault == NoFault && answers(k).gap == 0) ==>
                      next == old(next) + i && (i > 0 ==> next <= maxN)
        {
          var before := View();
          var id, _ := AllocateSequence(tmp, answers(i));
          KeepsImagesStep(old(View()), before, answers(i));
          if id == 0 {
            return true;
          }
          if id >= maxN {
            break;
          }
          i := i + 1;
        }
      }
    }
  }

  /** Image rows below the counter stay. */
  ghost predicate KeepsImages(before: Table, after: Table) {
    && before.next <= after.next
    && forall id :: id in before.rows && id < before.next && before.rows[id] == Name(id) ==>
         id in after.rows && after.rows[id] == Name(id)
  }

  lemma KeepsImagesStep(start: Table, t: Table, a: Answer)
    requires KeepsImages(start, t)
    ensures KeepsImages(start, Allocated(t, a).0)
  {
    forall id | id in start.rows && id < start.next && start.rows[id] == Name(id)
      ensures id in Allocated(t, a).0.rows && Allocated(t, a).0.rows[id] == Name(id)
    {
      CleanupKeepsImages(t, a, id);
    }
  }
}
