/** The migration runner's statement splitter. */
module SplitSql {

  predicate IsSpace(c: char) {
    c == ' ' || c == '\t' || c == '\n' || c == '\U{0B}' || c == '\U{0C}' || c == '\r'
  }

  predicate AllSpace(s: string) { forall i :: 0 <= i < |s| ==> IsSpace(s[i]) }

  /** Empty, or bounded by characters that are not white space. */
  predicate Trimmed(s: string) {
    s == "" || (!IsSpace(s[0]) && !IsSpace(s[|s| - 1]))
  }

  function SkipLeft(s: string, a: nat): (r: nat)
    requires a <= |s|
    ensures a <= r <= |s| && (r == |s| || !IsSpace(s[r]))
    ensures forall i :: a <= i < r ==> IsSpace(s[i])
    decreases |s| - a
  {
    if a < |s| && IsSpace(s[a]) then SkipLeft(s, a + 1) else a
  }

  function SkipRight(s: string, a: nat, b: nat): (r: nat)
    requires a <= b <= |s|
    ensures a <= r <= b && (r == a || !IsSpace(s[r - 1]))
    ensures forall i :: r <= i < b ==> IsSpace(s[i])
    decreases b
  {
    if b > a && IsSpace(s[b - 1]) then SkipRight(s, a, b - 1) else b
  }

  /** White space cut from both ends. */
  function Trim(s: string): (r: string)
    ensures Trimmed(r)
  {
    s[SkipLeft(s, 0)..SkipRight(s, SkipLeft(s, 0), |s|)]
  }

  lemma TrimOfTrimmed(s: string)
    requires Trimmed(s)
    ensures Trim(s) == s
  {
  }

  /** The two loops of `trim`. */
  method TrimLoop(s: string) returns (r: string)
    ensures r == Trim(s)
  {
    var a, b := 0, |s|;
    while a < b && IsSpace(s[a])
      invariant 0 <= a <= b == |s|
      invariant SkipLeft(s, 0) == SkipLeft(s, a)
    {
      a := a + 1;
    }
    assert SkipLeft(s, 0) == a;
    while b > a && IsSpace(s[b - 1])
      invariant a <= b <= |s|
      invariant SkipRight(s, a, |s|) == SkipRight(s, a, b)
    {
      b := b - 1;
    }
    r := s[a..b];
  }

  // ---------------------------------------------------------------- the scanner

  /** `quote` is the open quote character, NUL when there is none. */
  datatype Mode = Mode(quote: char, escaped: bool)

  const NONE: char := '\0'
  const CLEAN: Mode := Mode(NONE, false)

  predicate IsQuote(c: char) { c == '\'' || c == '"' || c == '`' }

  predicate Separates(m: Mode, c: char) { m == CLEAN && c == ';' }

  function Advance(m: Mode, c: char): Mode {
    if m.escaped then m.(escaped := false)
    else if c == '\\' then m.(escaped := true)
    else if m.quote != NONE then (if c == m.quote then CLEAN else m)
    else if IsQuote(c) then Mode(c, false)
    else m
  }

  function Emit(cur: string): seq<string> {
    if Trim(cur) == "" then [] else [Trim(cur)]
  }

  function Scan(s: string, m: Mode, cur: string): seq<string>
    decreases |s|
  {
    if s == "" then Emit(cur)
    else if Separates(m, s[0]) then Emit(cur) + Scan(s[1..], m, "")
    else Scan(s[1..], Advance(m, s[0]), cur + [s[0]])
  }

  function Split(sql: string): seq<string> { Scan(sql, CLEAN, "") }

  method SplitSql(sql: string) returns (out: seq<string>)
    ensures out == Split(sql)
  {
    out := [];
    var cur := "";
    var quote := NONE;
    var escaped := false;
    for i := 0 to |sql|
      invariant out + Scan(sql[i..], Mode(quote, escaped), cur) == Split(sql)
    {
      var c := sql[i];
      assert sql[i..][1..] == sql[i + 1..];
      if escaped {
        cur := cur + [c];
        escaped := false;
        continue;
      }
      if c == '\\' {
        cur := cur + [c];
        escaped := true;
        continue;
      }
      if quote != NONE {
        cur := cur + [c];
        if c == quote {
          quote := NONE;
        }
        continue;
      }
      if c == '\'' || c == '"' || c == '`' {
        quote := c;
        cur := cur + [c];
        continue;
      }
      if c == ';' {
        var t := TrimLoop(cur);
        if t != "" {
          out := out + [t];
        }
        cur := "";
      } else {
        cur := cur + [c];
      }
    }
    var t := TrimLoop(cur);
    if t != "" {
      out := out + [t];
    }
  }

  // ---------------------------------------------------------------- splitting undoes joining

  /** The mode after `s`, were every character kept. */
  function EndMode(s: string, m: Mode): Mode
  {
    if s == "" then m else EndMode(s[1..], Advance(m, s[0]))
  }

  /** No character of `s` is a separator when scanning starts in `m`. */
  predicate NoSeparator(s: string, m: Mode) {
    s == "" || (!Separates(m, s[0]) && NoSeparator(s[1..], Advance(m, s[0])))
  }

  lemma {:induction false} ScanKeeps(a: string, b: string, m: Mode, cur: string)
    requires NoSeparator(a, m)
    ensures Scan(a + b, m, cur) == Scan(b, EndMode(a, m), cur + a)
    decreases |a|
  {
    if a == "" {
      assert a + b == b && cur + a == cur;
    } else {
      assert (a + b)[1..] == a[1..] + b;
      ScanKeeps(a[1..], b, Advance(m, a[0]), cur + [a[0]]);
      assert cur + [a[0]] + a[1..] == cur + a;
    }
  }

  lemma {:induction false} ModesConcat(a: string, b: string, m: Mode)
    ensures EndMode(a + b, m) == EndMode(b, EndMode(a, m))
    ensures NoSeparator(a + b, m) <==> NoSeparator(a, m) && NoSeparator(b, EndMode(a, m))
    decreases |a|
  {
    if a == "" {
      assert a + b == b;
    } else {
      assert (a + b)[1..] == a[1..] + b;
      ModesConcat(a[1..], b, Advance(m, a[0]));
    }
  }

  lemma {:induction false} SpaceIsNeutral(s: string)
    requires AllSpace(s)
    ensures EndMode(s, CLEAN) == CLEAN && NoSeparator(s, CLEAN)
    decreases |s|
  {
    if s == "" {
    } else {
      assert IsSpace(s[0]);
      assert forall i :: 0 <= i < |s| - 1 ==> s[1..][i] == s[i + 1];
      SpaceIsNeutral(s[1..]);
    }
  }

  /** A statement as the splitter returns it. */
  predicate IsStatement(t: string) {
    t != "" && Trimmed(t) && NoSeparator(t, CLEAN)
  }

  lemma EmittedIsStatement(cur: string)
    requires NoSeparator(cur, CLEAN)
    ensures forall t :: t in Emit(cur) ==> IsStatement(t)
  {
    var a := SkipLeft(cur, 0);
    var b := SkipRight(cur, a, |cur|);
    var head, tail := cur[..a], cur[b..];
    assert cur == head + (cur[a..b] + tail);
    ModesConcat(head, cur[a..b] + tail, CLEAN);
    SpaceIsNeutral(head);
    ModesConcat(cur[a..b], tail, CLEAN);
  }

  lemma {:induction false} ScanGivesStatements(s: string, m: Mode, cur: string)
    requires NoSeparator(cur, CLEAN) && EndMode(cur, CLEAN) == m
    ensures forall t :: t in Scan(s, m, cur) ==> IsStatement(t)
    decreases |s|
  {
    if s == "" {
      EmittedIsStatement(cur);
    } else if Separates(m, s[0]) {
      EmittedIsStatement(cur);
      ScanGivesStatements(s[1..], m, "");
    } else {
      ModesConcat(cur, [s[0]], CLEAN);
      assert [s[0]][1..] == "";
      ScanGivesStatements(s[1..], Advance(m, s[0]), cur + [s[0]]);
    }
  }

  /** Every statement the splitter returns splits to itself. */
  lemma StatementsAreFixed(sql: string, t: string)
    requires t in Split(sql)
    ensures IsStatement(t) && Split(t) == [t]
  {
    ScanGivesStatements(sql, CLEAN, "");
    SplitOne(t);
  }

  lemma SplitOne(t: string)
    requires IsStatement(t)
    ensures Split(t) == [t]
  {
    ScanKeeps(t, "", CLEAN, "");
    assert t + "" == t && "" + t == t;
    TrimOfTrimmed(t);
  }

  function Join(xs: seq<string>): string {
    if xs == [] then "" else if |xs| == 1 then xs[0] else xs[0] + ";" + Join(xs[1..])
  }

  /** Statements, all but the last of which end outside quotes and escapes. */
  predicate Joinable(xs: seq<string>) {
    && (forall i :: 0 <= i < |xs| ==> IsStatement(xs[i]))
    && (forall i :: 0 <= i < |xs| - 1 ==> EndMode(xs[i], CLEAN) == CLEAN)
  }

  lemma SplitAfterStatement(x: string, rest: string)
    requires IsStatement(x) && EndMode(x, CLEAN) == CLEAN
    ensures Split(x + ";" + rest) == [x] + Split(rest)
  {
    assert x + ";" + rest == x + (";" + rest);
    ScanKeeps(x, ";" + rest, CLEAN, "");
    assert "" + x == x && (";" + rest)[1..] == rest;
    TrimOfTrimmed(x);
  }

  lemma {:induction false} JoinableRoundTrip(xs: seq<string>)
    requires Joinable(xs)
    ensures Split(Join(xs)) == xs
    decreases |xs|
  {
    if xs == [] {
    } else if |xs| == 1 {
      SplitOne(xs[0]);
    } else {
      assert Joinable(xs[1..]);
      JoinableRoundTrip(xs[1..]);
      SplitAfterStatement(xs[0], Join(xs[1..]));
    }
  }

  /** What is already in `cur` stays in the next statement. */
  lemma {:induction false} FirstContainsCur(s: string, m: Mode, cur: string)
    requires cur != "" && !IsSpace(cur[0]) && !IsSpace(cur[|cur| - 1])
    ensures |Scan(s, m, cur)| > 0 && |Scan(s, m, cur)[0]| >= |cur|
    decreases |s|
  {
    FirstIsLonger(s, m, cur, |cur|);
  }

  lemma {:induction false} FirstIsLonger(s: string, m: Mode, cur: string, n: nat)
    requires 0 < n <= |cur| && !IsSpace(cur[0]) && !IsSpace(cur[n - 1])
    ensures |Scan(s, m, cur)| > 0 && |Scan(s, m, cur)[0]| >= n
    decreases |s|
  {
    if s == "" || Separates(m, s[0]) {
      assert SkipLeft(cur, 0) == 0;
      assert SkipRight(cur, 0, |cur|) >= n;
    } else {
      FirstIsLonger(s[1..], Advance(m, s[0]), cur + [s[0]], n);
    }
  }

  lemma {:induction false} RoundTripIsJoinable(xs: seq<string>)
    requires Split(Join(xs)) == xs
    ensures Joinable(xs)
    decreases |xs|
  {
    forall i | 0 <= i < |xs| ensures IsStatement(xs[i]) {
      StatementsAreFixed(Join(xs), xs[i]);
    }
    if |xs| > 1 {
      var x, rest := xs[0], Join(xs[1..]);
      assert IsStatement(x);
      if EndMode(x, CLEAN) != CLEAN {
        assert x + ";" + rest == x + (";" + rest);
        ScanKeeps(x, ";" + rest, CLEAN, "");
        assert "" + x == x;
        FirstContainsCur((";" + rest)[1..], Advance(EndMode(x, CLEAN), ';'), x + ";");
      } else {
        SplitAfterStatement(x, rest);
        assert ([x] + Split(rest))[1..] == Split(rest);
        RoundTripIsJoinable(xs[1..]);
        forall i | 0 <= i < |xs| - 1 ensures EndMode(xs[i], CLEAN) == CLEAN {
          assert i > 0 ==> xs[i] == xs[1..][i - 1];
        }
      }
    }
  }

  /** Splitting the `;`-join of a list gives the list back exactly when the list is joinable. */
  lemma SplitUndoesJoin(xs: seq<string>)
    ensures Split(Join(xs)) == xs <==> Joinable(xs)
  {
    if Joinable(xs) {
      JoinableRoundTrip(xs);
    } else if Split(Join(xs)) == xs {
      RoundTripIsJoinable(xs);
    }
  }

  // ---------------------------------------------------------------- the splitter against a grammar

  /** What stands between two quotes: a character, or a backslash with the character it protects. */
  datatype Inner = Char(c: char) | Pair(c: char)

  /** What a statement consists of: plain characters, protected characters, and quoted sections. */
  datatype Piece = Plain(c: char) | Escaped(c: char) | Quoted(q: char, body: seq<Inner>)

  predicate ValidInner(q: char, i: Inner) { i.Char? ==> i.c != q && i.c != '\\' }

  predicate ValidInners(q: char, body: seq<Inner>) {
    (q == '\'' || q == '"' || q == '`') && forall i :: 0 <= i < |body| ==> ValidInner(q, body[i])
  }

  predicate ValidPiece(p: Piece) {
    match p
    case Plain(c) => c != ';' && c != '\\' && c != '\'' && c != '"' && c != '`'
    case Escaped(_) => true
    case Quoted(q, body) => ValidInners(q, body)
  }

  predicate ValidPieces(ps: seq<Piece>) { forall i :: 0 <= i < |ps| ==> ValidPiece(ps[i]) }

  function InnerText(i: Inner): string { if i.Char? then [i.c] else ['\\', i.c] }

  function InnersText(body: seq<Inner>): string {
    if body == [] then "" else InnerText(body[0]) + InnersText(body[1..])
  }

  function PieceText(p: Piece): string {
    match p
    case Plain(c) => [c]
    case Escaped(c) => ['\\', c]
    case Quoted(q, body) => [q] + InnersText(body) + [q]
  }

  function Text(ps: seq<Piece>): string {
    if ps == [] then "" else PieceText(ps[0]) + Text(ps[1..])
  }

  lemma OneCharacter(c: char, m: Mode)
    ensures EndMode([c], m) == Advance(m, c)
    ensures NoSeparator([c], m) <==> !Separates(m, c)
  {
    assert [c][1..] == "";
    assert EndMode("", Advance(m, c)) == Advance(m, c) && NoSeparator("", Advance(m, c));
  }

  lemma TwoCharacters(c: char, d: char, m: Mode)
    ensures EndMode([c, d], m) == Advance(Advance(m, c), d)
    ensures NoSeparator([c, d], m) <==> !Separates(m, c) && !Separates(Advance(m, c), d)
  {
    assert [c, d] == [c] + [d];
    ModesConcat([c], [d], m);
    OneCharacter(c, m);
    OneCharacter(d, Advance(m, c));
  }

  lemma InnerKeepsQuote(q: char, i: Inner)
    requires ValidInners(q, [i])
    ensures EndMode(InnerText(i), Mode(q, false)) == Mode(q, false) && NoSeparator(InnerText(i), Mode(q, false))
  {
    assert ValidInner(q, [i][0]);
    match i
    case Char(c) => OneCharacter(c, Mode(q, false));
    case Pair(c) => TwoCharacters('\\', c, Mode(q, false));
  }

  lemma {:induction false} InnersKeepQuote(q: char, body: seq<Inner>)
    requires ValidInners(q, body)
    ensures EndMode(InnersText(body), Mode(q, false)) == Mode(q, false)
    ensures NoSeparator(InnersText(body), Mode(q, false))
    decreases |body|
  {
    if body == [] {
    } else {
      assert ValidInner(q, body[0]);
      InnerKeepsQuote(q, body[0]);
      InnersKeepQuote(q, body[1..]);
      ModesConcat(InnerText(body[0]), InnersText(body[1..]), Mode(q, false));
    }
  }

  /** An opening quote and what follows it up to, but without, the closing one. */
  lemma OpenQuote(q: char, body: seq<Inner>)
    requires ValidInners(q, body)
    ensures EndMode([q] + InnersText(body), CLEAN) == Mode(q, false) && NoSeparator([q] + InnersText(body), CLEAN)
  {
    OneCharacter(q, CLEAN);
    InnersKeepQuote(q, body);
    ModesConcat([q], InnersText(body), CLEAN);
  }

  lemma PieceStaysClean(p: Piece)
    requires ValidPiece(p)
    ensures EndMode(PieceText(p), CLEAN) == CLEAN && NoSeparator(PieceText(p), CLEAN)
  {
    match p
    case Plain(c) => OneCharacter(c, CLEAN);
    case Escaped(c) => TwoCharacters('\\', c, CLEAN);
    case Quoted(q, body) =>
      OpenQuote(q, body);
      OneCharacter(q, Mode(q, false));
      ModesConcat([q] + InnersText(body), [q], CLEAN);
  }

  lemma {:induction false} PiecesStayClean(ps: seq<Piece>)
    requires ValidPieces(ps)
    ensures EndMode(Text(ps), CLEAN) == CLEAN && NoSeparator(Text(ps), CLEAN)
    decreases |ps|
  {
    if ps == [] {
    } else {
      PieceStaysClean(ps[0]);
      PiecesStayClean(ps[1..]);
      ModesConcat(PieceText(ps[0]), Text(ps[1..]), CLEAN);
    }
  }

  /** What may stand behind the pieces: nothing, the next statement, or something unfinished. */
  datatype Tail = Done | More(rest: string) | Dangling | Open(q: char, body: seq<Inner>, dangling: bool)

  predicate ValidTail(tail: Tail) { tail.Open? ==> ValidInners(tail.q, tail.body) }

  function TailText(tail: Tail): string {
    match tail
    case Done => ""
    case More(rest) => ";" + rest
    case Dangling => "\\"
    case Open(q, body, dangling) => [q] + InnersText(body) + (if dangling then "\\" else "")
  }

  /** The one statement of a text without top-level `;`. */
  function OneStatement(text: string): seq<string> {
    if Trim(text) == "" then [] else [Trim(text)]
  }

  lemma ScansWhole(text: string)
    requires NoSeparator(text, CLEAN)
    ensures Split(text) == OneStatement(text)
  {
    ScanKeeps(text, "", CLEAN, "");
    assert text + "" == text && "" + text == text;
  }

  lemma SplitsBehind(text: string, rest: string)
    requires NoSeparator(text, CLEAN) && EndMode(text, CLEAN) == CLEAN
    ensures Split(text + (";" + rest)) == OneStatement(text) + Split(rest)
  {
    ScanKeeps(text, ";" + rest, CLEAN, "");
    assert "" + text == text && (";" + rest)[1..] == rest;
  }

  lemma UnfinishedHasNoSeparator(tail: Tail)
    requires ValidTail(tail) && !tail.More?
    ensures NoSeparator(TailText(tail), CLEAN)
  {
    match tail
    case Done =>
    case Dangling => OneCharacter('\\', CLEAN);
    case Open(q, body, dangling) =>
      OpenQuote(q, body);
      OneCharacter('\\', Mode(q, false));
      ModesConcat([q] + InnersText(body), "\\", CLEAN);
      assert [q] + InnersText(body) + "" == [q] + InnersText(body);
  }

  /**
   A `;` ends the statement exactly where the grammar says so: behind plain
   characters, protected characters and closed quotes, whatever `;` these
   contain.  A text that breaks off inside quotes or behind a backslash is one statement.
   */
  lemma GrammarSplits(ps: seq<Piece>, tail: Tail)
    requires ValidPieces(ps) && ValidTail(tail)
    ensures Split(Text(ps) + TailText(tail)) ==
            if tail.More? then OneStatement(Text(ps)) + Split(tail.rest) else OneStatement(Text(ps) + TailText(tail))
  {
    PiecesStayClean(ps);
    if tail.More? {
      SplitsBehind(Text(ps), tail.rest);
    } else {
      UnfinishedHasNoSeparator(tail);
      ModesConcat(Text(ps), TailText(tail), CLEAN);
      ScansWhole(Text(ps) + TailText(tail));
    }
  }

  lemma InnersPush(i: Inner, body: seq<Inner>)
    ensures InnersText([i] + body) == InnerText(i) + InnersText(body)
  {
    assert ([i] + body)[1..] == body;
  }

  /** A text behind an opening quote is the rest of a quoted section, or it breaks off before the closing quote. */
  lemma {:induction false} ReadsQuoted(q: char, s: string)
    returns (body: seq<Inner>, closed: bool, dangling: bool, rest: string)
    requires q == '\'' || q == '"' || q == '`'
    ensures ValidInners(q, body) && |rest| <= |s|
    ensures closed ==> s == InnersText(body) + ([q] + rest)
    ensures !closed ==> s == InnersText(body) + (if dangling then "\\" else "")
    decreases |s|
  {
    if s == "" {
      body, closed, dangling, rest := [], false, false, "";
    } else if s[0] == q {
      body, closed, dangling, rest := [], true, false, s[1..];
      assert s == "" + ([q] + rest);
    } else if s == "\\" {
      body, closed, dangling, rest := [], false, true, "";
      assert s == "" + "\\";
    } else {
      var i := if s[0] == '\\' then Pair(s[1]) else Char(s[0]);
      var n := |InnerText(i)|;
      var more, c, d, r := ReadsQuoted(q, s[n..]);
      body, closed, dangling, rest := [i] + more, c, d, r;
      InnersPush(i, more);
      assert s == InnerText(i) + s[n..];
    }
  }

  lemma TextPush(p: Piece, ps: seq<Piece>)
    ensures Text([p] + ps) == PieceText(p) + Text(ps)
  {
    assert ([p] + ps)[1..] == ps;
  }

  /** The first piece of a text that does not break off or separate at once. */
  lemma FirstPiece(s: string) returns (p: Piece, rest: string, tail: Tail)
    requires s != "" && s[0] != ';'
    ensures ValidTail(tail)
    ensures tail.Done? ==> ValidPiece(p) && s == PieceText(p) + rest && |rest| < |s|
    ensures !tail.Done? ==> !tail.More? && s == TailText(tail)
  {
    var c := s[0];
    p, rest, tail := Plain(c), s[1..], Done;
    if c == '\\' {
      if |s| == 1 {
        tail := Dangling;
      } else {
        p, rest := Escaped(s[1]), s[2..];
      }
    } else if c == '\'' || c == '"' || c == '`' {
      var body, closed, dangling, r := ReadsQuoted(c, s[1..]);
      assert s == [c] + s[1..];
      if closed {
        p, rest := Quoted(c, body), r;
        assert s == PieceText(p) + rest;
      } else {
        tail := Open(c, body, dangling);
        assert s == TailText(tail);
      }
    }
  }

  lemma TailOnly(tail: Tail)
    ensures Text([]) + TailText(tail) == TailText(tail)
  {
  }

  lemma PutInFront(p: Piece, ps: seq<Piece>, tail: string)
    ensures PieceText(p) + (Text(ps) + tail) == Text([p] + ps) + tail
  {
    TextPush(p, ps);
    assert PieceText(p) + (Text(ps) + tail) == (PieceText(p) + Text(ps)) + tail;
  }

  /** Every text whatever is made of pieces and a tail, so the grammar describes the splitter completely. */
  lemma {:induction false} EveryTextIsGrammatical(s: string) returns (ps: seq<Piece>, tail: Tail)
    ensures ValidPieces(ps) && ValidTail(tail) && s == Text(ps) + TailText(tail)
    decreases |s|
  {
    if s == "" {
      ps, tail := [], Done;
      TailOnly(tail);
    } else if s[0] == ';' {
      ps, tail := [], More(s[1..]);
      TailOnly(tail);
    } else {
      var p, rest, broken := FirstPiece(s);
      if broken.Done? {
        ps, tail := EveryTextIsGrammatical(rest);
        PutInFront(p, ps, TailText(tail));
        ps := [p] + ps;
      } else {
        ps, tail := [], broken;
        TailOnly(tail);
      }
    }
  }

  lemma {:induction false} CharsText(body: string)
    ensures InnersText(seq(|body|, i requires 0 <= i < |body| => Char(body[i]))) == body
    decreases |body|
  {
    var inners := seq(|body|, i requires 0 <= i < |body| => Char(body[i]));
    if body == "" {
    } else {
      var rest := body[1..];
      assert inners[1..] == seq(|rest|, i requires 0 <= i < |rest| => Char(rest[i]));
      CharsText(rest);
    }
  }

  /** A quoted text is one statement, whatever it contains but its quote and backslashes. */
  lemma QuotedIsOneStatement(q: char, body: string)
    requires q == '\'' || q == '"' || q == '`'
    requires forall i :: 0 <= i < |body| ==> body[i] != q && body[i] != '\\'
    ensures Split([q] + body + [q]) == [[q] + body + [q]]
  {
    var inners := seq(|body|, i requires 0 <= i < |body| => Char(body[i]));
    var text := [q] + body + [q];
    CharsText(body);
    assert [Quoted(q, inners)][1..] == [];
    assert Text([Quoted(q, inners)]) == text + "" == text;
    GrammarSplits([Quoted(q, inners)], Done);
    assert text + "" == text;
    TrimCuts("", text, "");
    assert "" + text + "" == text;
  }

  /** `trim` cuts blanks, tabs, line feeds, vertical tabs, form feeds and carriage returns, and nothing else. */
  lemma TrimCuts(a: string, x: string, b: string)
    requires forall i :: 0 <= i < |a| ==> a[i] in {' ', '\t', '\n', '\U{0B}', '\U{0C}', '\r'}
    requires forall i :: 0 <= i < |b| ==> b[i] in {' ', '\t', '\n', '\U{0B}', '\U{0C}', '\r'}
    requires x != "" ==> x[0] !in {' ', '\t', '\n', '\U{0B}', '\U{0C}', '\r'}
    requires x != "" ==> x[|x| - 1] !in {' ', '\t', '\n', '\U{0B}', '\U{0C}', '\r'}
    ensures Trim(a + x + b) == x
  {
    var s := a + x + b;
    var l := SkipLeft(s, 0);
    var r := SkipRight(s, l, |s|);
    assert forall i :: 0 <= i < |a| ==> IsSpace(s[i]);
    assert forall i :: 0 <= i < |b| ==> s[|a| + |x| + i] == b[i];
    if x == "" {
      assert forall i :: 0 <= i < |s| ==> IsSpace(s[i]);
    } else {
      assert s[|a|] == x[0] && s[|a| + |x| - 1] == x[|x| - 1];
      assert l == |a|;
      assert forall i :: |a| + |x| <= i < |s| ==> s[i] == b[i - |a| - |x|];
      assert r == |a| + |x|;
      assert s[|a|..|a| + |x|] == x;
    }
  }
}
