/**
 The command lines the converter hands to `sh -c`, against the shell's own
 tokenizing: quoting by backslash and by single quotes, POSIX.1-2017 XCU
 sections 2.2.1 and 2.2.2.
 */
module Shell {
  import opened Decimal

  // ---------------------------------------------------------------- the shell's side

  /**
   What the shell makes of a line: the fields of one simple command; no such
   command, because of an open quote, an operator or a line break; or something
   that the text alone does not decide: expansions, patterns, keywords,
   assignments, a backslash at the very end.
   */
  datatype Parse = Unclear | NotOneCommand | Words(words: seq<string>)

  datatype Lexer = Between | InWord(cur: string) | InQuote(cur: string) | Escape(cur: string, started: bool) | Comment

  predicate IsBlank(c: char) { c == ' ' || c == '\t' }

  predicate IsOperator(c: char) {
    c == '\n' || c == '|' || c == '&' || c == ';' || c == '<' || c == '>' || c == '(' || c == ')' || c == '\0'
  }

  /** Expansions, double quotes and patterns: what becomes of them depends on more than the line. */
  predicate IsExpansion(c: char) {
    c == '$' || c == '`' || c == '"' || c == '*' || c == '?' || c == '['
  }

  predicate IsPlain(c: char) {
    !IsBlank(c) && !IsOperator(c) && !IsExpansion(c) && c != '\'' && c != '\\'
  }

  /** A word without anything the shell interprets; comments and home directories only start words. */
  predicate PlainWord(w: string) {
    w != "" && w[0] != '#' && w[0] != '~' && forall i :: 0 <= i < |w| ==> IsPlain(w[i])
  }

  function Prepend(w: string, p: Parse): Parse {
    if p.Words? then Words([w] + p.words) else p
  }

  datatype Move = Stop(parse: Parse) | Go(to: Lexer) | EndWord(word: string)

  /** What one character does to the tokenizer. */
  function Feed(st: Lexer, c: char): Move {
    match st
    case Between =>
      if IsBlank(c) then Go(Between)
      else if c == '\'' then Go(InQuote(""))
      else if c == '\\' then Go(Escape("", false))
      else if c == '#' then Go(Comment)
      else if IsOperator(c) then Stop(NotOneCommand)
      else if IsExpansion(c) || c == '~' then Stop(Unclear)
      else Go(InWord([c]))
    case InWord(cur) =>
      if IsBlank(c) then EndWord(cur)
      else if c == '\'' then Go(InQuote(cur))
      else if c == '\\' then Go(Escape(cur, true))
      else if IsOperator(c) then Stop(NotOneCommand)
      else if IsExpansion(c) then Stop(Unclear)
      else Go(InWord(cur + [c]))
    case InQuote(cur) =>
      if c == '\'' then Go(InWord(cur)) else Go(InQuote(cur + [c]))
    case Escape(cur, started) =>
      if c == '\n' then Go(if started then InWord(cur) else Between) else Go(InWord(cur + [c]))
    case Comment =>
      if c == '\n' then Stop(NotOneCommand) else Go(Comment)
  }

  function Finish(st: Lexer): Parse {
    match st
    case Between => Words([])
    case Comment => Words([])
    case InWord(cur) => Words([cur])
    case InQuote(_) => NotOneCommand
    case Escape(_, _) => Unclear
  }

  function Lex(s: string, st: Lexer): Parse {
    if s == "" then Finish(st)
    else
      match Feed(st, s[0])
      case Stop(parse) => parse
      case Go(next) => Lex(s[1..], next)
      case EndWord(word) => Prepend(word, Lex(s[1..], Between))
  }

  /** `c_str()` ends at the first NUL. */
  function CStr(s: string): string {
    if s == "" || s[0] == '\0' then "" else [s[0]] + CStr(s[1..])
  }

  /** The fields of a line, whatever stands where a command is expected. */
  function Fields(cmd: string): Parse { Lex(CStr(cmd), Between) }

  // ---- the place of the command name: POSIX.1-2017 XCU sections 2.4 and 2.10.2

  const RESERVED: set<string> := {
    "!", "{", "}", "case", "do", "done", "elif", "else", "esac", "fi", "for", "if", "in", "then", "until", "while",
    "[[", "]]", "function", "select"}

  /** An unquoted `=` behind the first character makes the first word an assignment, or leaves it open. */
  predicate MayAssign(w: string) {
    exists i :: 0 < i < |w| && w[i] == '=' && forall j :: 0 <= j < i ==> IsPlain(w[j])
  }

  /** A plain word that the shell takes for the name of a command. */
  predicate CommandWord(w: string) {
    PlainWord(w) && w !in RESERVED && !MayAssign(w)
  }

  /** Without continued lines. */
  function Joined(s: string): string
    decreases |s|
  {
    if s == "" then ""
    else if |s| >= 2 && s[0] == '\\' && s[1] == '\n' then Joined(s[2..])
    else [s[0]] + Joined(s[1..])
  }

  function SkipBlanks(s: string): string {
    if s != "" && IsBlank(s[0]) then SkipBlanks(s[1..]) else s
  }

  function UpToBlank(s: string): string {
    if s == "" || IsBlank(s[0]) then "" else [s[0]] + UpToBlank(s[1..])
  }

  /** The text of the first word, quotes included. */
  function Head(line: string): string { UpToBlank(SkipBlanks(Joined(line))) }

  predicate OpensCommand(line: string) {
    Head(line) !in RESERVED && !MayAssign(Head(line))
  }

  /** What `sh -c` makes of a `std::string`. */
  function ShellWords(cmd: string): Parse {
    if OpensCommand(CStr(cmd)) then Fields(cmd) else Unclear
  }

  predicate NulFree(s: string) { '\0' !in s }

  // ---------------------------------------------------------------- the program's side

  function QuoteBody(s: string): string {
    if s == "" then "" else (if s[0] == '\'' then "'\\''" else [s[0]]) + QuoteBody(s[1..])
  }

  function Quote(s: string): string { "'" + QuoteBody(s) + "'" }

  method ShellQuote(s: string) returns (out: string)
    ensures out == Quote(s)
  {
    out := "'";
    for i := 0 to |s|
      invariant out + QuoteBody(s[i..]) == "'" + QuoteBody(s)
    {
      assert s[i..][1..] == s[i + 1..];
      if s[i] == '\'' {
        out := out + "'\\''";
      } else {
        out := out + [s[i]];
      }
    }
    out := out + "'";
  }

  /** An argument as the builders write it: verbatim, or through the quoting function. */
  datatype Arg = Raw(word: string) | Quoted(value: string) {
    function Text(): string { if Raw? then word else Quote(value) }
    function Value(): string { if Raw? then word else value }
  }

  /** Arguments separated by single blanks. */
  function Render(args: seq<Arg>): string {
    if args == [] then ""
    else if |args| == 1 then args[0].Text()
    else Render(args[..|args| - 1]) + " " + args[|args| - 1].Text()
  }

  function Values(args: seq<Arg>): seq<string> {
    seq(|args|, i requires 0 <= i < |args| => args[i].Value())
  }

  predicate RawWordsPlain(args: seq<Arg>) {
    forall i :: 0 <= i < |args| && args[i].Raw? ==> PlainWord(args[i].word)
  }

  predicate QuotedNulFree(args: seq<Arg>) {
    forall i :: 0 <= i < |args| && args[i].Quoted? ==> NulFree(args[i].value)
  }

  // ---------------------------------------------------------------- one argument

  predicate CanStartQuote(st: Lexer) { st.Between? || st.InWord? }

  function Cur(st: Lexer): string { if st.Between? || st.Comment? then "" else st.cur }

  /** Closing the quote, an escaped quote, and opening it again. */
  lemma LexQuotedQuote(rest: string, cur: string)
    ensures Lex("'\\''" + rest, InQuote(cur)) == Lex(rest, InQuote(cur + "'"))
  {
    var q1, q2, q3 := "\\''" + rest, "''" + rest, "'" + rest;
    var q := "'\\''" + rest;
    assert q[1..] == q1 && q1[1..] == q2 && q2[1..] == q3 && q3[1..] == rest;
    assert Lex(q, InQuote(cur)) == Lex(q1, InWord(cur));
    assert Lex(q1, InWord(cur)) == Lex(q2, Escape(cur, true));
    assert Lex(q2, Escape(cur, true)) == Lex(q3, InWord(cur + "'"));
    assert Lex(q3, InWord(cur + "'")) == Lex(rest, InQuote(cur + "'"));
  }

  lemma {:induction false} LexQuoteBody(s: string, rest: string, cur: string)
    ensures Lex(QuoteBody(s) + rest, InQuote(cur)) == Lex(rest, InQuote(cur + s))
    decreases |s|
  {
    if s == "" {
      assert QuoteBody(s) + rest == rest && cur + s == cur;
    } else {
      var tail := QuoteBody(s[1..]) + rest;
      LexQuoteBody(s[1..], rest, cur + [s[0]]);
      assert cur + [s[0]] + s[1..] == cur + s;
      if s[0] == '\'' {
        assert QuoteBody(s) + rest == "'\\''" + tail;
        LexQuotedQuote(tail, cur);
      } else {
        assert QuoteBody(s) + rest == [s[0]] + tail;
      }
    }
  }

  /** Whatever the string, its quoted form adds exactly that string to the current word. */
  lemma LexQuote(s: string, rest: string, st: Lexer)
    requires CanStartQuote(st)
    ensures Lex(Quote(s) + rest, st) == Lex(rest, InWord(Cur(st) + s))
  {
    assert Quote(s) + rest == "'" + (QuoteBody(s) + ("'" + rest));
    LexQuoteBody(s, "'" + rest, Cur(st));
    assert ("'" + rest)[1..] == rest;
  }

  lemma {:induction false} LexPlain(w: string, rest: string, cur: string)
    requires forall i :: 0 <= i < |w| ==> IsPlain(w[i])
    ensures Lex(w + rest, InWord(cur)) == Lex(rest, InWord(cur + w))
    decreases |w|
  {
    if w == "" {
      assert w + rest == rest && cur + w == cur;
    } else {
      assert (w + rest)[1..] == w[1..] + rest;
      LexPlain(w[1..], rest, cur + [w[0]]);
      assert cur + [w[0]] + w[1..] == cur + w;
    }
  }

  lemma LexArg(arg: Arg, rest: string)
    requires arg.Raw? ==> PlainWord(arg.word)
    ensures Lex(arg.Text() + rest, Between) == Lex(rest, InWord(arg.Value()))
  {
    match arg
    case Raw(w) =>
      assert (w + rest)[1..] == w[1..] + rest;
      LexPlain(w[1..], rest, [w[0]]);
      assert [w[0]] + w[1..] == w;
    case Quoted(s) =>
      LexQuote(s, rest, Between);
      assert "" + s == s;
  }

  // ---------------------------------------------------------------- whole command lines

  function PrependAll(ws: seq<string>, p: Parse): Parse {
    if p.Words? then Words(ws + p.words) else p
  }

  lemma LexBlank(rest: string, cur: string)
    ensures Lex(" " + rest, Between) == Lex(rest, Between)
    ensures Lex(" " + rest, InWord(cur)) == Prepend(cur, Lex(rest, Between))
  {
    assert (" " + rest)[1..] == rest;
  }

  /** An argument followed by the end of the line, or by a blank and more. */
  lemma LexFirst(arg: Arg, rest: string)
    requires arg.Raw? ==> PlainWord(arg.word)
    ensures Lex(arg.Text() + "", Between) == Words([arg.Value()])
    ensures Lex(arg.Text() + (" " + rest), Between) == Prepend(arg.Value(), Lex(rest, Between))
  {
    LexArg(arg, "");
    LexArg(arg, " " + rest);
    LexBlank(rest, arg.Value());
  }

  lemma RenderPush(args: seq<Arg>, last: Arg)
    requires args != []
    ensures Render(args + [last]) == Render(args) + " " + last.Text()
  {
    assert (args + [last])[..|args|] == args;
  }

  lemma RenderPop(args: seq<Arg>, rest: string)
    requires |args| > 1
    ensures Render(args) + rest == Render(args[..|args| - 1]) + (" " + (args[|args| - 1].Text() + rest))
  {
    var init, text := Render(args[..|args| - 1]), args[|args| - 1].Text();
    Reassociate(init + " ", text, rest);
    Reassociate(init, " ", text + rest);
  }

  lemma ValuesPop(args: seq<Arg>)
    requires args != []
    ensures Values(args) == Values(args[..|args| - 1]) + [args[|args| - 1].Value()]
  {
  }

  lemma PrependOneMore(ws: seq<string>, w: string, p: Parse)
    ensures PrependAll(ws, Prepend(w, p)) == PrependAll(ws + [w], p)
  {
    if p.Words? {
      assert ws + ([w] + p.words) == ws + [w] + p.words;
    }
  }

  /** The arguments of a line become words, whatever follows behind a blank. */
  lemma {:induction false} LexRenderThen(args: seq<Arg>, rest: string)
    requires args != [] && RawWordsPlain(args)
    ensures Lex(Render(args) + (" " + rest), Between) == PrependAll(Values(args), Lex(rest, Between))
    decreases |args|
  {
    var n := |args| - 1;
    var last := args[n];
    LexFirst(last, rest);
    ValuesPop(args);
    PrependOneMore(Values(args[..n]), last.Value(), Lex(rest, Between));
    if n > 0 {
      RenderPop(args, " " + rest);
      LexRenderThen(args[..n], last.Text() + (" " + rest));
    } else {
      assert args == [last];
    }
  }

  lemma LexRender(args: seq<Arg>)
    requires args != [] && RawWordsPlain(args)
    ensures Lex(Render(args), Between) == Words(Values(args))
  {
    var n := |args| - 1;
    assert Render(args) + "" == Render(args);
    LexFirst(args[n], "");
    ValuesPop(args);
    if n > 0 {
      RenderPop(args, "");
      LexRenderThen(args[..n], args[n].Text() + "");
    }
  }

  lemma {:induction false} CStrConcat(a: string, b: string)
    requires NulFree(a)
    ensures CStr(a + b) == a + CStr(b)
    decreases |a|
  {
    if a == "" {
      assert a + b == b;
    } else {
      assert (a + b)[1..] == a[1..] + b;
      CStrConcat(a[1..], b);
    }
  }

  lemma {:induction false} QuoteBodyNulFree(s: string)
    ensures NulFree(QuoteBody(s)) <==> NulFree(s)
    decreases |s|
  {
    if s == "" {
    } else {
      QuoteBodyNulFree(s[1..]);
      assert s == [s[0]] + s[1..];
    }
  }

  lemma {:induction false} CStrCutsQuote(s: string, rest: string)
    requires !NulFree(s)
    ensures CStr(QuoteBody(s) + rest) == QuoteBody(CStr(s))
    decreases |s|
  {
    assert s == [s[0]] + s[1..];
    var piece := if s[0] == '\'' then "'\\''" else [s[0]];
    assert QuoteBody(s) + rest == piece + (QuoteBody(s[1..]) + rest);
    if s[0] != '\0' {
      CStrConcat(piece, QuoteBody(s[1..]) + rest);
      CStrCutsQuote(s[1..], rest);
      assert ([s[0]] + CStr(s[1..]))[1..] == CStr(s[1..]);
    }
  }

  lemma TextNulFree(arg: Arg)
    requires arg.Raw? ==> PlainWord(arg.word)
    requires arg.Quoted? ==> NulFree(arg.value)
    ensures NulFree(arg.Text())
  {
    if arg.Quoted? {
      QuoteBodyNulFree(arg.value);
    } else {
      forall i | 0 <= i < |arg.word| ensures arg.word[i] != '\0' {
        assert IsPlain(arg.word[i]);
      }
    }
  }

  lemma CutQuoteStaysOpen(s: string)
    ensures Lex("'" + QuoteBody(s), Between) == NotOneCommand
  {
    var cut := "'" + QuoteBody(s);
    assert cut[1..] == QuoteBody(s) + "";
    LexQuoteBody(s, "", "");
  }

  lemma CStrOfCutLine(before: string, s: string, rest: string)
    requires NulFree(before) && !NulFree(s)
    ensures CStr(before + Quote(s) + rest) == before + ("'" + QuoteBody(CStr(s)))
  {
    assert before + Quote(s) + rest == before + ("'" + (QuoteBody(s) + ("'" + rest)));
    CStrConcat(before, "'" + (QuoteBody(s) + ("'" + rest)));
    CStrConcat("'", QuoteBody(s) + ("'" + rest));
    CStrCutsQuote(s, "'" + rest);
  }

  lemma OpenStaysOpen(init: seq<Arg>, open: string)
    requires init != [] && RawWordsPlain(init) && Lex(open, Between) == NotOneCommand
    ensures Lex(Render(init) + " " + open, Between) == NotOneCommand
  {
    LexRenderThen(init, open);
    Reassociate(Render(init), " ", open);
  }

  lemma Reassociate(a: string, b: string, c: string)
    ensures a + b + c == a + (b + c)
  {
  }

  lemma NulInLast(init: seq<Arg>, s: string, rest: string)
    requires init != [] && RawWordsPlain(init) && QuotedNulFree(init) && !NulFree(s)
    ensures Fields(Render(init) + " " + Quote(s) + rest) == NotOneCommand
  {
    RenderNulFree(init);
    var before := Render(init) + " ";
    CStrOfCutLine(before, s, rest);
    CutQuoteStaysOpen(CStr(s));
    OpenStaysOpen(init, "'" + QuoteBody(CStr(s)));
  }

  /** A NUL inside a quoted argument cuts the line there and leaves the quote open. */
  lemma {:induction false} NulLeavesQuoteOpen(args: seq<Arg>, rest: string)
    requires RawWordsPlain(args) && !QuotedNulFree(args)
    ensures Fields(Render(args) + rest) == NotOneCommand
    decreases |args|
  {
    var n := |args| - 1;
    var init, last := args[..n], args[n];
    if !QuotedNulFree(init) {
      assert Render(args) + rest == Render(init) + (" " + last.Text() + rest);
      NulLeavesQuoteOpen(init, " " + last.Text() + rest);
    } else {
      assert last.Quoted? && !NulFree(last.value);
      if n == 0 {
        CStrOfCutLine("", last.value, rest);
        CutQuoteStaysOpen(CStr(last.value));
        assert "" + Quote(last.value) + rest == Render(args) + rest;
        assert "" + ("'" + QuoteBody(CStr(last.value))) == "'" + QuoteBody(CStr(last.value));
      } else {
        NulInLast(init, last.value, rest);
      }
    }
  }

  lemma {:induction false} RenderNulFree(args: seq<Arg>)
    requires RawWordsPlain(args) && QuotedNulFree(args)
    ensures NulFree(Render(args))
    decreases |args|
  {
    if args == [] {
    } else {
      TextNulFree(args[|args| - 1]);
      RenderNulFree(args[..|args| - 1]);
    }
  }

  lemma {:induction false} JoinedKeeps(w: string, rest: string)
    requires '\\' !in w
    ensures Joined(w + rest) == w + Joined(rest)
    decreases |w|
  {
    if w == "" {
      assert w + rest == rest;
    } else {
      assert w[0] in w && (w + rest)[1..] == w[1..] + rest;
      JoinedKeeps(w[1..], rest);
    }
  }

  lemma {:induction false} UpToBlankKeeps(w: string, rest: string)
    requires forall i :: 0 <= i < |w| ==> !IsBlank(w[i])
    ensures UpToBlank(w + rest) == w + UpToBlank(rest)
    decreases |w|
  {
    if w == "" {
      assert w + rest == rest;
    } else {
      assert (w + rest)[1..] == w[1..] + rest;
      UpToBlankKeeps(w[1..], rest);
    }
  }

  predicate BlankOrEnd(rest: string) { rest == "" || rest[0] == ' ' }

  lemma HeadOfWord(w: string, rest: string)
    requires PlainWord(w) && BlankOrEnd(rest)
    ensures Head(w + rest) == w
  {
    forall i | 0 <= i < |w| ensures w[i] != '\\' && !IsBlank(w[i]) {
      assert IsPlain(w[i]);
    }
    JoinedKeeps(w, rest);
    assert !IsBlank((w + Joined(rest))[0]);
    UpToBlankKeeps(w, Joined(rest));
    assert UpToBlank(Joined(rest)) == "";
  }

  lemma HeadOfQuote(rest: string)
    ensures Head("'" + rest) != "" && Head("'" + rest)[0] == '\''
  {
    var line := "'" + rest;
    assert line[1..] == rest && Joined(line) == ['\''] + Joined(rest);
    assert SkipBlanks(Joined(line)) == Joined(line);
  }

  predicate NamesCommand(arg: Arg) { arg.Raw? ==> CommandWord(arg.word) }

  lemma FirstOpens(arg: Arg, rest: string)
    requires NamesCommand(arg) && BlankOrEnd(rest)
    ensures OpensCommand(arg.Text() + rest)
  {
    match arg
    case Raw(w) => HeadOfWord(w, rest);
    case Quoted(s) =>
      assert Quote(s) + rest == "'" + (QuoteBody(s) + "'" + rest);
      HeadOfQuote(QuoteBody(s) + "'" + rest);
  }

  /** A line that begins with the name of a command, or with a quoted string, is a command. */
  lemma {:induction false} LineOpens(args: seq<Arg>, rest: string)
    requires args != [] && NamesCommand(args[0]) && BlankOrEnd(rest)
    ensures OpensCommand(Render(args) + rest)
    decreases |args|
  {
    if |args| == 1 {
      FirstOpens(args[0], rest);
    } else {
      var more := " " + (args[|args| - 1].Text() + rest);
      RenderPop(args, rest);
      LineOpens(args[..|args| - 1], more);
    }
  }

  /**
   A rendered line that begins with the name of a command reaches the program as
   exactly its arguments if and only if no quoted one contains a NUL.
   */
  lemma LineRoundTrip(args: seq<Arg>)
    requires args != [] && RawWordsPlain(args) && NamesCommand(args[0])
    ensures ShellWords(Render(args)) == Words(Values(args)) <==> QuotedNulFree(args)
  {
    assert Render(args) + "" == Render(args);
    if QuotedNulFree(args) {
      RenderNulFree(args);
      CStrConcat(Render(args), "");
      LineOpens(args, "");
      LexRender(args);
    } else {
      NulLeavesQuoteOpen(args, "");
    }
  }

  /** One quoted string is one word, and that word. */
  lemma QuoteRoundTrip(s: string)
    ensures ShellWords(Quote(s)) == Words([s]) <==> NulFree(s)
  {
    var args := [Quoted(s)];
    assert Values(args) == [s];
    LineRoundTrip(args);
  }

  // ---------------------------------------------------------------- the builders

  function Compression(requested: string): string {
    if requested != "lossless" && requested != "uncompressed" then "lossless" else requested
  }

  function ConvertCommand(bin: string, src: string, dst: string, requested: string): string {
    bin + " convert " + Quote(src) + " " + Quote(dst) + " -c " + Compression(requested) + " --keep-mtime true -f"
  }

  function ReembedCommand(bin: string, dng: string, jpeg: string, seed: string): string {
    bin + " reembed --dng " + Quote(dng) + " --preview " + Quote(jpeg) + " --output " + Quote(dng) +
    " --seed " + Quote(seed)
  }

  function OrientationCommand(exif: string, orientation: int, dng: string): string {
    exif + " -Orientation=" + PrintInt(orientation) + " -n -overwrite_original_in_place " + Quote(dng)
  }

  /** The same command as the rotation dispatcher writes it: without quotes. */
  function DispatchCommand(exif: string, orientation: int, dng: string): string {
    exif + " -Orientation=" + PrintInt(orientation) + " -n -overwrite_original_in_place " + dng
  }

  lemma FixedWordsPlain()
    ensures PlainWord("convert") && PlainWord("-c") && PlainWord("-f") && PlainWord("true")
    ensures PlainWord("lossless") && PlainWord("-n")
  {
  }

  lemma FixedWordsPlain2()
    ensures PlainWord("uncompressed") && PlainWord("--keep-mtime") && PlainWord("--seed")
  {
  }

  lemma FixedWordsPlain3()
    ensures PlainWord("reembed") && PlainWord("--dng") && PlainWord("--preview") && PlainWord("--output")
  {
  }

  lemma FixedWordsPlain4()
    ensures PlainWord("-overwrite_original_in_place")
  {
  }

  lemma OrientationWordPlain(orientation: int)
    ensures PlainWord("-Orientation=" + PrintInt(orientation))
  {
    var digits := PrintInt(orientation);
    forall i | 0 <= i < |digits| ensures IsPlain(digits[i]) {
      assert digits[i] == '-' || IsDigit(digits[i]);
    }
    assert forall i :: 0 <= i < 13 ==> IsPlain("-Orientation="[i]);
  }

  function ConvertArgs(bin: string, src: Arg, dst: Arg, comp: string): seq<Arg> {
    [Raw(bin), Raw("convert"), src, dst, Raw("-c"), Raw(comp), Raw("--keep-mtime"), Raw("true"), Raw("-f")]
  }

  lemma RenderFour(bin: string, a: string, b: Arg, c: Arg)
    ensures Render([Raw(bin), Raw(a), b, c]) == bin + " " + a + " " + b.Text() + " " + c.Text()
  {
    RenderPush([Raw(bin)], Raw(a));
    RenderPush([Raw(bin)] + [Raw(a)], b);
    RenderPush([Raw(bin)] + [Raw(a)] + [b], c);
    assert [Raw(bin)] + [Raw(a)] + [b] + [c] == [Raw(bin), Raw(a), b, c];
  }

  lemma RenderPushTwo(args: seq<Arg>, a: string, b: Arg)
    requires args != []
    ensures Render(args + [Raw(a), b]) == Render(args) + " " + a + " " + b.Text()
  {
    RenderPush(args, Raw(a));
    RenderPush(args + [Raw(a)], b);
    assert args + [Raw(a)] + [b] == args + [Raw(a), b];
  }

  lemma ConvertRendered(bin: string, src: Arg, dst: Arg, comp: string)
    ensures Render(ConvertArgs(bin, src, dst, comp)) ==
            bin + " convert " + src.Text() + " " + dst.Text() + " -c " + comp + " --keep-mtime true -f"
  {
    var a4 := [Raw(bin), Raw("convert"), src, dst];
    var a6 := a4 + [Raw("-c"), Raw(comp)];
    var a8 := a6 + [Raw("--keep-mtime"), Raw("true")];
    RenderFour(bin, "convert", src, dst);
    RenderPushTwo(a4, "-c", Raw(comp));
    RenderPushTwo(a6, "--keep-mtime", Raw("true"));
    RenderPush(a8, Raw("-f"));
    assert ConvertArgs(bin, src, dst, comp) == a8 + [Raw("-f")];
    GlueConvert(bin, src.Text(), dst.Text(), comp);
  }

  /** The builder's literals carry the blanks between the words. */
  lemma GlueConvert(bin: string, p: string, q: string, comp: string)
    ensures bin + " " + "convert" + " " + p + " " + q + " " + "-c" + " " + comp +
            " " + "--keep-mtime" + " " + "true" + " " + "-f"
         == bin + " convert " + p + " " + q + " -c " + comp + " --keep-mtime true -f"
  {
    assert bin + " " + "convert" + " " == bin + " convert ";
    var x := bin + " convert " + p + " " + q;
    assert x + " " + "-c" + " " == x + " -c ";
    var y := x + " -c " + comp;
    assert y + " " + "--keep-mtime" + " " + "true" + " " + "-f" == y + " --keep-mtime true -f";
  }

  /** The converter gets exactly the intended arguments if and only if neither path contains a NUL. */
  lemma ConvertArguments(bin: string, src: string, dst: string, requested: string)
    requires CommandWord(bin)
    ensures ShellWords(ConvertCommand(bin, src, dst, requested)) ==
              Words([bin, "convert", src, dst, "-c",
                     if requested == "uncompressed" then "uncompressed" else "lossless",
                     "--keep-mtime", "true", "-f"])
            <==> NulFree(src) && NulFree(dst)
  {
    var comp := Compression(requested);
    var args := ConvertArgs(bin, Quoted(src), Quoted(dst), comp);
    ConvertRendered(bin, Quoted(src), Quoted(dst), comp);
    FixedWordsPlain();
    FixedWordsPlain2();
    assert Values(args) == [bin, "convert", src, dst, "-c", comp, "--keep-mtime", "true", "-f"];
    LineRoundTrip(args);
    assert QuotedNulFree(args) <==> NulFree(src) && NulFree(dst) by {
      assert args[2] == Quoted(src) && args[3] == Quoted(dst);
    }
  }

  function ReembedArgs(bin: string, dng: Arg, jpeg: Arg, seed: Arg): seq<Arg> {
    [Raw(bin), Raw("reembed"), Raw("--dng"), dng, Raw("--preview"), jpeg, Raw("--output"), dng, Raw("--seed"), seed]
  }

  lemma ReembedRendered(bin: string, dng: Arg, jpeg: Arg, seed: Arg)
    ensures Render(ReembedArgs(bin, dng, jpeg, seed)) ==
            bin + " reembed --dng " + dng.Text() + " --preview " + jpeg.Text() + " --output " + dng.Text() +
            " --seed " + seed.Text()
  {
    var a4 := [Raw(bin), Raw("reembed"), Raw("--dng"), dng];
    var a6 := a4 + [Raw("--preview"), jpeg];
    var a8 := a6 + [Raw("--output"), dng];
    RenderFour(bin, "reembed", Raw("--dng"), dng);
    RenderPushTwo(a4, "--preview", jpeg);
    RenderPushTwo(a6, "--output", dng);
    RenderPushTwo(a8, "--seed", seed);
    assert ReembedArgs(bin, dng, jpeg, seed) == a8 + [Raw("--seed"), seed];
    GlueReembed(bin, dng.Text(), jpeg.Text(), seed.Text());
  }

  lemma GlueReembed(bin: string, d: string, j: string, s: string)
    ensures bin + " " + "reembed" + " " + "--dng" + " " + d + " " + "--preview" + " " + j +
            " " + "--output" + " " + d + " " + "--seed" + " " + s
         == bin + " reembed --dng " + d + " --preview " + j + " --output " + d + " --seed " + s
  {
    assert bin + " " + "reembed" + " " + "--dng" + " " == bin + " reembed --dng ";
    var x := bin + " reembed --dng " + d;
    assert x + " " + "--preview" + " " == x + " --preview ";
    var y := x + " --preview " + j;
    assert y + " " + "--output" + " " == y + " --output ";
    var z := y + " --output " + d;
    assert z + " " + "--seed" + " " == z + " --seed ";
  }

  /** The embedder gets exactly the intended arguments if and only if none of its strings contains a NUL. */
  lemma ReembedArguments(bin: string, dng: string, jpeg: string, seed: string)
    requires CommandWord(bin)
    ensures ShellWords(ReembedCommand(bin, dng, jpeg, seed)) ==
              Words([bin, "reembed", "--dng", dng, "--preview", jpeg, "--output", dng, "--seed", seed])
            <==> NulFree(dng) && NulFree(jpeg) && NulFree(seed)
  {
    var args := ReembedArgs(bin, Quoted(dng), Quoted(jpeg), Quoted(seed));
    ReembedRendered(bin, Quoted(dng), Quoted(jpeg), Quoted(seed));
    FixedWordsPlain2();
    FixedWordsPlain3();
    assert Values(args) == [bin, "reembed", "--dng", dng, "--preview", jpeg, "--output", dng, "--seed", seed];
    LineRoundTrip(args);
    assert QuotedNulFree(args) <==> NulFree(dng) && NulFree(jpeg) && NulFree(seed) by {
      assert args[3] == Quoted(dng) && args[5] == Quoted(jpeg) && args[9] == Quoted(seed);
    }
  }

  function ExifPrefix(exif: string, orientation: int): seq<Arg> {
    [Raw(exif), Raw("-Orientation=" + PrintInt(orientation)), Raw("-n"), Raw("-overwrite_original_in_place")]
  }

  lemma ExifPrefixRendered(exif: string, orientation: int)
    ensures Render(ExifPrefix(exif, orientation)) + " " ==
            exif + " -Orientation=" + PrintInt(orientation) + " -n -overwrite_original_in_place "
  {
    RenderFour(exif, "-Orientation=" + PrintInt(orientation), Raw("-n"), Raw("-overwrite_original_in_place"));
    GlueExif(exif, PrintInt(orientation));
  }

  lemma ReassociateFive(x: string, a: string, b: string, c: string, d: string, e: string)
    ensures x + a + b + c + d + e == x + (a + b + c + d + e)
  {
  }

  lemma GlueExif(exif: string, o: string)
    ensures exif + " " + ("-Orientation=" + o) + " " + "-n" + " " + "-overwrite_original_in_place" + " "
         == exif + " -Orientation=" + o + " -n -overwrite_original_in_place "
  {
    assert exif + " " + ("-Orientation=" + o) == exif + " -Orientation=" + o;
    assert " " + "-n" + " " + "-overwrite_original_in_place" + " " == " -n -overwrite_original_in_place ";
    ReassociateFive(exif + " -Orientation=" + o, " ", "-n", " ", "-overwrite_original_in_place", " ");
  }

  lemma ExifPrefixPlain(exif: string, orientation: int)
    requires CommandWord(exif)
    ensures RawWordsPlain(ExifPrefix(exif, orientation)) && QuotedNulFree(ExifPrefix(exif, orientation))
  {
    FixedWordsPlain();
    FixedWordsPlain4();
    OrientationWordPlain(orientation);
  }

  lemma OrientationArguments(exif: string, orientation: int, dng: string)
    requires CommandWord(exif)
    ensures ShellWords(OrientationCommand(exif, orientation, dng)) ==
              Words([exif, "-Orientation=" + PrintInt(orientation), "-n", "-overwrite_original_in_place", dng])
            <==> NulFree(dng)
  {
    var prefix := ExifPrefix(exif, orientation);
    var args := prefix + [Quoted(dng)];
    RenderPush(prefix, Quoted(dng));
    ExifPrefixRendered(exif, orientation);
    ExifPrefixPlain(exif, orientation);
    assert Values(args) == [exif, "-Orientation=" + PrintInt(orientation), "-n", "-overwrite_original_in_place", dng];
    LineRoundTrip(args);
    assert QuotedNulFree(args) <==> NulFree(dng) by {
      assert args[4] == Quoted(dng);
    }
  }

  // ---------------------------------------------------------------- the unquoted command

  function TotalLength(ws: seq<string>): nat {
    if ws == [] then 0 else |ws[0]| + TotalLength(ws[1..])
  }

  predicate AllPlain(s: string) { forall i :: 0 <= i < |s| ==> IsPlain(s[i]) }

  /** Tokenizing never adds characters, and drops one for every quote, backslash or blank it interprets. */
  lemma {:induction false} LexShrinks(s: string, st: Lexer)
    requires Lex(s, st).Words?
    ensures TotalLength(Lex(s, st).words) <= |Cur(st)| + |s|
    ensures TotalLength(Lex(s, st).words) == |Cur(st)| + |s| ==> !st.InQuote? && (CanStartQuote(st) ==> AllPlain(s))
    decreases |s|
  {
    if s == "" {
      assert Lex(s, st) == Finish(st);
      if st.InWord? {
        assert [st.cur][1..] == [];
      }
    } else {
      var c, rest := s[0], s[1..];
      match Feed(st, c)
      case Go(next) =>
        LexShrinks(rest, next);
        assert |Cur(next)| <= |Cur(st)| + 1;
        assert AllPlain(rest) && IsPlain(c) ==> AllPlain(s) by { assert s == [c] + rest; }
      case EndWord(w) =>
        LexShrinks(rest, Between);
        var tail := Lex(rest, Between).words;
        assert Lex(s, st).words == [w] + tail && ([w] + tail)[1..] == tail;
      case Stop(_) =>
    }
  }

  lemma {:induction false} CStrShorter(s: string)
    ensures |CStr(s)| <= |s| && (|CStr(s)| == |s| ==> CStr(s) == s && NulFree(s))
    decreases |s|
  {
    if s == "" {
    } else {
      CStrShorter(s[1..]);
      assert s == [s[0]] + s[1..];
    }
  }

  /** The text alone decides: no expansions, patterns or home directories, and no backslash at the end. */
  predicate Decided(s: string) {
    && (forall i :: 0 <= i < |s| ==> !IsExpansion(s[i]) && s[i] != '~')
    && (s != "" ==> s[|s| - 1] != '\\')
  }

  lemma {:induction false} DecidedIsClear(s: string, st: Lexer)
    requires Decided(s) && (st.Escape? ==> s != "")
    ensures !Lex(s, st).Unclear?
    decreases |s|
  {
    if s == "" {
    } else {
      var rest := s[1..];
      assert Decided(rest) && !IsExpansion(s[0]) && s[0] != '~';
      match Feed(st, s[0])
      case Stop(_) =>
      case Go(next) => DecidedIsClear(rest, next);
      case EndWord(_) => DecidedIsClear(rest, Between);
    }
  }

  lemma WholeFieldIsPlain(w: string)
    requires Lex(w, Between) == Words([w])
    ensures PlainWord(w)
  {
    LexShrinks(w, Between);
    assert TotalLength([w]) == |w| by {
      assert [w][1..] == [];
    }
    if w != "" && w[0] == '#' {
      LexShrinks(w[1..], Comment);
    }
  }

  /**
   An unquoted argument means itself exactly when it is plain: blanks, quotes,
   backslashes, operators and comments all change it.  The answer is open only
   where expansions come into play.
   */
  lemma BareWord(w: string)
    ensures Fields(w) == Words([w]) <==> PlainWord(w)
    ensures Decided(CStr(w)) ==> !Fields(w).Unclear?
  {
    CStrShorter(w);
    if PlainWord(w) {
      TextNulFree(Raw(w));
      CStrConcat(w, "");
      assert w + "" == w;
      LexFirst(Raw(w), "");
    } else if Fields(w) == Words([w]) {
      LexShrinks(CStr(w), Between);
      assert TotalLength([w]) == |w| by {
        assert [w][1..] == [];
      }
      assert CStr(w) == w;
      WholeFieldIsPlain(w);
    }
    if Decided(CStr(w)) {
      DecidedIsClear(CStr(w), Between);
    }
  }

  lemma CStrAfterPlain(args: seq<Arg>, rest: string)
    requires args != [] && RawWordsPlain(args) && QuotedNulFree(args) && NamesCommand(args[0])
    ensures ShellWords(Render(args) + " " + rest) == PrependAll(Values(args), Fields(rest))
  {
    RenderNulFree(args);
    CStrConcat(Render(args) + " ", rest);
    Reassociate(Render(args), " ", CStr(rest));
    LineOpens(args, " " + CStr(rest));
    LexRenderThen(args, CStr(rest));
  }

  /** Behind other fields one field is missing or wrong exactly when it is so by itself. */
  lemma LastField(ws: seq<string>, p: Parse, last: string)
    ensures PrependAll(ws, p) == Words(ws + [last]) <==> p == Words([last])
    ensures PrependAll(ws, p).Unclear? <==> p.Unclear?
  {
    if p.Words? {
      assert (ws + p.words)[|ws|..] == p.words && (ws + [last])[|ws|..] == [last];
    }
  }

  lemma DispatchParsed(exif: string, orientation: int, dng: string)
    requires CommandWord(exif)
    ensures ShellWords(DispatchCommand(exif, orientation, dng)) ==
            PrependAll(Values(ExifPrefix(exif, orientation)), Fields(dng))
  {
    ExifPrefixRendered(exif, orientation);
    ExifPrefixPlain(exif, orientation);
    CStrAfterPlain(ExifPrefix(exif, orientation), dng);
  }

  /**
   The dispatcher's command names the intended file exactly when the path is a
   plain word; and unless expansions come into play, any other path certainly
   gives something else.
   */
  lemma DispatchArguments(exif: string, orientation: int, dng: string)
    requires CommandWord(exif)
    ensures var parse := ShellWords(DispatchCommand(exif, orientation, dng));
            var option := "-Orientation=" + PrintInt(orientation);
            && (parse == Words([exif, option, "-n", "-overwrite_original_in_place", dng]) <==> PlainWord(dng))
            && (Decided(CStr(dng)) ==> !parse.Unclear?)
  {
    var words := Values(ExifPrefix(exif, orientation));
    DispatchParsed(exif, orientation, dng);
    BareWord(dng);
    LastField(words, Fields(dng), dng);
    assert words + [dng] ==
           [exif, "-Orientation=" + PrintInt(orientation), "-n", "-overwrite_original_in_place", dng];
  }
}
