/** The API's JSON printer against a reader for flat objects: strings as in RFC 8259, section 7. */
module Json {
  import opened Decimal
  import opened Options

  // ---------------------------------------------------------------- the reader

  datatype Value = Str(text: string) | Num(number: int)

  datatype Member = Member(key: string, value: Value)

  datatype Scanned<+T> = Scanned(value: T, rest: string)

  predicate IsHex(c: char) { IsDigit(c) || 'a' <= c <= 'f' || 'A' <= c <= 'F' }

  function HexValue(c: char): (v: nat)
    requires IsHex(c)
    ensures v < 16
  {
    if IsDigit(c) then DigitValue(c) else if 'a' <= c then (c - 'a') as nat + 10 else (c - 'A') as nat + 10
  }

  function Hex4(s: string): nat
    requires |s| >= 4 && IsHex(s[0]) && IsHex(s[1]) && IsHex(s[2]) && IsHex(s[3])
  {
    ((HexValue(s[0]) * 16 + HexValue(s[1])) * 16 + HexValue(s[2])) * 16 + HexValue(s[3])
  }

  /** The escape behind a backslash, with the number of characters it takes. */
  function ReadEscape(s: string): (r: Option<(char, nat)>)
    ensures r.Some? ==> 0 < r.value.1 <= |s|
  {
    if s == "" then None
    else
      match s[0]
      case '"' => Some(('"', 1))
      case '\\' => Some(('\\', 1))
      case '/' => Some(('/', 1))
      case 'b' => Some(('\U{08}', 1))
      case 'f' => Some(('\U{0C}', 1))
      case 'n' => Some(('\n', 1))
      case 'r' => Some(('\r', 1))
      case 't' => Some(('\t', 1))
      case 'u' =>
        if |s| >= 5 && IsHex(s[1]) && IsHex(s[2]) && IsHex(s[3]) && IsHex(s[4]) && !(0xD800 <= Hex4(s[1..]) < 0xE000)
        then Some((Hex4(s[1..]) as char, 5)) else None
      case _ => None
  }

  function Cons(c: char, r: Option<Scanned<string>>): Option<Scanned<string>> {
    match r case None => None case Some(sc) => Some(Scanned([c] + sc.value, sc.rest))
  }

  predicate IsControl(c: char) { c < ' ' }

  /** A string body up to its closing quote; control characters must be escaped. */
  function ReadBody(s: string): (r: Option<Scanned<string>>)
    ensures r.Some? ==> |r.value.rest| < |s|
    decreases |s|
  {
    if s == "" then None
    else if s[0] == '"' then Some(Scanned("", s[1..]))
    else if s[0] == '\\' then
      match ReadEscape(s[1..])
      case None => None
      case Some((c, n)) => Cons(c, ReadBody(s[1 + n..]))
    else if IsControl(s[0]) then None
    else Cons(s[0], ReadBody(s[1..]))
  }

  function DigitsEnd(s: string, from: nat): (r: nat)
    requires from <= |s|
    ensures from <= r <= |s| && (r == |s| || !IsDigit(s[r]))
    ensures forall i :: from <= i < r ==> IsDigit(s[i])
    decreases |s| - from
  {
    if from < |s| && IsDigit(s[from]) then DigitsEnd(s, from + 1) else from
  }

  function ReadDigits(s: string, from: nat): (r: Option<Scanned<nat>>)
    requires from <= |s|
    ensures r.Some? ==> |r.value.rest| < |s|
  {
    var e := DigitsEnd(s, from);
    if e == from then None else Some(Scanned(ReadNat(s[from..e]), s[e..]))
  }

  function Negated(n: int): int { 0 - n }

  function ReadNumber(s: string): (r: Option<Scanned<int>>)
    ensures r.Some? ==> |r.value.rest| < |s|
  {
    if s != "" && s[0] == '-' then
      match ReadDigits(s, 1) case None => None case Some(d) => Some(Scanned(Negated(d.value), d.rest))
    else
      match ReadDigits(s, 0) case None => None case Some(d) => Some(Scanned(d.value, d.rest))
  }

  function ReadValue(s: string): (r: Option<Scanned<Value>>)
    ensures r.Some? ==> |r.value.rest| < |s|
  {
    if s != "" && s[0] == '"' then
      match ReadBody(s[1..]) case None => None case Some(b) => Some(Scanned(Str(b.value), b.rest))
    else
      match ReadNumber(s) case None => None case Some(n) => Some(Scanned(Num(n.value), n.rest))
  }

  function ReadMember(s: string): (r: Option<Scanned<Member>>)
    ensures r.Some? ==> |r.value.rest| < |s|
  {
    if s == "" || s[0] != '"' then None
    else
      match ReadBody(s[1..])
      case None => None
      case Some(k) =>
        if k.rest == "" || k.rest[0] != ':' then None
        else
          match ReadValue(k.rest[1..])
          case None => None
          case Some(v) => Some(Scanned(Member(k.value, v.value), v.rest))
  }

  /** Members up to the closing brace, which must end the input. */
  function ReadMembers(s: string): Option<seq<Member>>
    decreases |s|
  {
    match ReadMember(s)
    case None => None
    case Some(m) =>
      if m.rest == "}" then Some([m.value])
      else if m.rest == "" || m.rest[0] != ',' then None
      else
        match ReadMembers(m.rest[1..])
        case None => None
        case Some(ms) => Some([m.value] + ms)
  }

  function ReadObject(s: string): Option<seq<Member>> {
    if s != "" && s[0] == '{' then ReadMembers(s[1..]) else None
  }

  // ---------------------------------------------------------------- the printer

  function EscapeChar(c: char): string {
    if c == '"' || c == '\\' then "\\" + [c]
    else if c == '\n' then "\\n"
    else if c == '\r' then "\\r"
    else if c == '\t' then "\\t"
    else [c]
  }

  function Escape(s: string): string {
    if s == "" then "" else EscapeChar(s[0]) + Escape(s[1..])
  }

  lemma EscapePush(out: string, s: string, i: nat)
    requires i < |s|
    ensures out + Escape(s[i..]) == out + EscapeChar(s[i]) + Escape(s[i + 1..])
  {
    assert s[i..][1..] == s[i + 1..];
  }

  method JsonEscape(s: string) returns (out: string)
    ensures out == Escape(s)
  {
    out := "";
    for i := 0 to |s|
      invariant out + Escape(s[i..]) == Escape(s)
    {
      EscapePush(out, s, i);
      out := AppendEscaped(out, s[i]);
    }
  }

  /** The branches of the loop body. */
  method AppendEscaped(prefix: string, c: char) returns (out: string)
    ensures out == prefix + EscapeChar(c)
  {
    out := prefix;
    if c == '"' || c == '\\' {
      out := out + "\\";
      out := out + [c];
    } else if c == '\n' {
      out := out + "\\n";
    } else if c == '\r' {
      out := out + "\\r";
    } else if c == '\t' {
      out := out + "\\t";
    } else {
      out := out + [c];
    }
  }

  datatype Status = Pending | Converting | Completed | Failed | Restored | Legacy

  function StatusName(s: Status): string {
    match s
    case Pending => "pending"
    case Converting => "converting"
    case Completed => "completed"
    case Failed => "failed"
    case Restored => "restored"
    case Legacy => "legacy"
  }

  /** The printed fields of an import record. */
  datatype Record = Record(
    sequenceName: string, sourcePath: string, sourceHash: string, outputPath: string, outputHash: string,
    cameraModel: string, captureDate: string, captureTime: string, folderSchema: string, status: Status,
    createdAt: string, completedAt: string, orientation: int)

  datatype Field = Field(key: string, text: string)

  function StringFields(r: Record): seq<Field> {
    [Field("sequence", r.sequenceName), Field("source_path", r.sourcePath), Field("source_hash", r.sourceHash),
     Field("output_path", r.outputPath), Field("output_hash", r.outputHash), Field("camera_model", r.cameraModel),
     Field("capture_date", r.captureDate), Field("capture_time", r.captureTime), Field("folder_schema", r.folderSchema),
     Field("status", StatusName(r.status)), Field("created_at", r.createdAt), Field("completed_at", r.completedAt)]
  }

  function InQuotes(s: string): string { "\"" + s + "\"" }

  function PrintField(f: Field): string {
    InQuotes(f.key) + ":" + InQuotes(Escape(f.text)) + ","
  }

  /** The stream after one line per field, from the `k`-th on. */
  function WriteLines(os: string, fs: seq<Field>, k: nat): string
    requires k <= |fs|
    decreases |fs| - k
  {
    if k == |fs| then os else WriteLines(os + PrintField(fs[k]), fs, k + 1)
  }

  function RecordToJson(r: Record): string {
    WriteLines("{", StringFields(r), 0) + (InQuotes("orientation") + ":" + PrintInt(r.orientation) + "}")
  }

  function PrintFields(fs: seq<Field>): string {
    if fs == [] then "" else PrintField(fs[0]) + PrintFields(fs[1..])
  }

  // ---------------------------------------------------------------- strings

  /** Control characters the printer does not escape. */
  predicate IsRaw(c: char) { IsControl(c) && c != '\n' && c != '\r' && c != '\t' }

  predicate Printable(s: string) { forall i :: 0 <= i < |s| ==> !IsRaw(s[i]) }

  lemma ReadEscapedChar(c: char, rest: string)
    ensures ReadBody(EscapeChar(c) + rest) == if IsRaw(c) then None else Cons(c, ReadBody(rest))
  {
    var s := EscapeChar(c) + rest;
    if |EscapeChar(c)| == 2 {
      assert s[1..][0] == EscapeChar(c)[1];
      assert s[2..] == rest;
    } else {
      assert s[1..] == rest;
    }
  }

  /** The content never ends its own string early: the reader stops exactly at the quote the printer wrote. */
  lemma {:induction false} ReadEscaped(v: string, rest: string)
    ensures ReadBody(Escape(v) + ("\"" + rest)) == if Printable(v) then Some(Scanned(v, rest)) else None
    decreases |v|
  {
    var tail := "\"" + rest;
    if v == "" {
      assert Escape(v) + tail == tail && tail[1..] == rest;
    } else {
      assert Escape(v) + tail == EscapeChar(v[0]) + (Escape(v[1..]) + tail);
      ReadEscapedChar(v[0], Escape(v[1..]) + tail);
      ReadEscaped(v[1..], rest);
      assert v == [v[0]] + v[1..];
      assert Printable(v) <==> !IsRaw(v[0]) && Printable(v[1..]) by {
        assert forall i :: 0 <= i < |v| - 1 ==> v[1..][i] == v[i + 1];
      }
    }
  }

  lemma {:induction false} EscapeIsInjective(a: string, b: string)
    requires Escape(a) == Escape(b)
    ensures a == b
    decreases |a|
  {
    if a != "" && b != "" {
      var x, y := EscapeChar(a[0]), EscapeChar(b[0]);
      assert Escape(a)[0] == x[0] && Escape(b)[0] == y[0];
      if |x| == 2 {
        assert Escape(a)[1] == x[1] && Escape(b)[1] == y[1];
      }
      assert a[0] == b[0];
      assert Escape(a)[|x|..] == Escape(a[1..]) && Escape(b)[|x|..] == Escape(b[1..]);
      EscapeIsInjective(a[1..], b[1..]);
      assert a == [a[0]] + a[1..] && b == [b[0]] + b[1..];
    }
  }

  // ---------------------------------------------------------------- members

  /** Keys are written as they are. */
  predicate PlainKey(k: string) {
    forall i :: 0 <= i < |k| ==> k[i] != '"' && k[i] != '\\' && !IsControl(k[i])
  }

  lemma {:induction false} PlainIsUnescaped(k: string)
    requires PlainKey(k)
    ensures Escape(k) == k && Printable(k)
    decreases |k|
  {
    if k == "" {
    } else {
      assert forall i :: 0 <= i < |k| - 1 ==> k[1..][i] == k[i + 1];
      PlainIsUnescaped(k[1..]);
      assert k == [k[0]] + k[1..];
      assert !IsControl(k[0]);
    }
  }

  /** A printed string, whatever follows it. */
  lemma ReadQuoted(v: string, rest: string)
    ensures InQuotes(Escape(v)) + rest != "" && (InQuotes(Escape(v)) + rest)[0] == '"'
    ensures ReadBody((InQuotes(Escape(v)) + rest)[1..]) == if Printable(v) then Some(Scanned(v, rest)) else None
  {
    assert (InQuotes(Escape(v)) + rest)[1..] == Escape(v) + ("\"" + rest);
    ReadEscaped(v, rest);
  }

  lemma ReadKey(key: string, rest: string)
    requires PlainKey(key)
    ensures InQuotes(key) + rest != "" && (InQuotes(key) + rest)[0] == '"'
    ensures ReadBody((InQuotes(key) + rest)[1..]) == Some(Scanned(key, rest))
  {
    PlainIsUnescaped(key);
    ReadQuoted(key, rest);
  }

  lemma Behind(c: char, rest: string)
    ensures ([c] + rest)[0] == c && ([c] + rest)[1..] == rest
  {
  }

  lemma Nest(a: string, b: string, c: string, d: string, e: string)
    ensures a + b + c + d + e == a + (b + (c + (d + e)))
  {
    assert a + b + c + d + e == a + b + c + (d + e);
    assert a + b + c + (d + e) == a + b + (c + (d + e));
  }

  lemma ReadStringMember(f: Field, rest: string)
    requires PlainKey(f.key)
    ensures ReadMember(PrintField(f) + rest) ==
            if Printable(f.text) then Some(Scanned(Member(f.key, Str(f.text)), "," + rest)) else None
  {
    var value := InQuotes(Escape(f.text)) + ("," + rest);
    Nest(InQuotes(f.key), ":", InQuotes(Escape(f.text)), ",", rest);
    ReadKey(f.key, ":" + value);
    Behind(':', value);
    ReadQuoted(f.text, "," + rest);
  }

  predicate AllPrintable(fs: seq<Field>) { forall i :: 0 <= i < |fs| ==> Printable(fs[i].text) }

  predicate PlainKeys(fs: seq<Field>) { forall i :: 0 <= i < |fs| ==> PlainKey(fs[i].key) }

  lemma FieldsCons(fs: seq<Field>)
    requires fs != []
    ensures AllPrintable(fs) <==> Printable(fs[0].text) && AllPrintable(fs[1..])
    ensures PlainKeys(fs) <==> PlainKey(fs[0].key) && PlainKeys(fs[1..])
  {
    assert forall i :: 0 < i < |fs| ==> fs[i] == fs[1..][i - 1];
  }

  function Members(fs: seq<Field>): seq<Member> {
    if fs == [] then [] else [Member(fs[0].key, Str(fs[0].text))] + Members(fs[1..])
  }

  function ConsMembers(ms: seq<Member>, r: Option<seq<Member>>): Option<seq<Member>> {
    if r.Some? then Some(ms + r.value) else None
  }

  lemma ReadOneMore(f: Field, rest: string)
    requires PlainKey(f.key) && rest != ""
    ensures ReadMembers(PrintField(f) + rest) ==
            if Printable(f.text) then ConsMembers([Member(f.key, Str(f.text))], ReadMembers(rest)) else None
  {
    ReadStringMember(f, rest);
    Behind(',', rest);
  }

  lemma Associate(a: string, b: string, c: string)
    ensures a + b + c == a + (b + c)
  {
  }

  lemma FieldsPush(fs: seq<Field>, tail: string)
    requires fs != []
    ensures PrintFields(fs) + tail == PrintField(fs[0]) + (PrintFields(fs[1..]) + tail)
  {
    Associate(PrintField(fs[0]), PrintFields(fs[1..]), tail);
  }

  /** A run of string members reads back, unless one of them cannot be printed. */
  lemma {:induction false} ReadStringMembers(fs: seq<Field>, tail: string)
    requires PlainKeys(fs) && tail != ""
    ensures ReadMembers(PrintFields(fs) + tail) ==
            if AllPrintable(fs) then ConsMembers(Members(fs), ReadMembers(tail)) else None
    decreases |fs|
  {
    if fs == [] {
      assert PrintFields(fs) + tail == tail;
      assert ReadMembers(tail).Some? ==> [] + ReadMembers(tail).value == ReadMembers(tail).value;
    } else {
      var rest := PrintFields(fs[1..]) + tail;
      FieldsCons(fs);
      FieldsPush(fs, tail);
      ReadOneMore(fs[0], rest);
      ReadStringMembers(fs[1..], tail);
      ConsMore(Member(fs[0].key, Str(fs[0].text)), Members(fs[1..]), ReadMembers(tail));
    }
  }

  lemma ConsMore(m: Member, ms: seq<Member>, r: Option<seq<Member>>)
    ensures ConsMembers([m], ConsMembers(ms, r)) == ConsMembers([m] + ms, r)
  {
    if r.Some? {
      assert [m] + (ms + r.value) == [m] + ms + r.value;
    }
  }

  // ---------------------------------------------------------------- numbers

  lemma {:induction false} DigitsEndIs(s: string, from: nat, e: nat)
    requires from <= e <= |s| && (forall i :: from <= i < e ==> IsDigit(s[i])) && (e == |s| || !IsDigit(s[e]))
    ensures DigitsEnd(s, from) == e
    decreases e - from
  {
    if from == e {
    } else {
      DigitsEndIs(s, from + 1, e);
    }
  }

  lemma Middle(a: string, b: string, c: string)
    ensures (a + (b + c))[|a|..|a| + |b|] == b && (a + (b + c))[|a| + |b|..] == c
    ensures forall i :: 0 <= i < |b| ==> (a + (b + c))[|a| + i] == b[i]
    ensures c != "" ==> (a + (b + c))[|a| + |b|] == c[0]
  {
  }

  lemma DigitsInMiddle(s: string, n: nat, digits: string, rest: string)
    requires n + |digits| < |s| && s[n..n + |digits|] == digits && s[n + |digits|..] == rest
    requires digits != "" && AllDigits(digits) && !IsDigit(rest[0])
    ensures ReadDigits(s, n) == Some(Scanned(ReadNat(digits), rest))
  {
    forall i | n <= i < n + |digits| ensures IsDigit(s[i]) {
      assert s[i] == s[n..n + |digits|][i - n] == digits[i - n];
    }
    assert s[n + |digits|] == s[n + |digits|..][0];
    DigitsEndIs(s, n, n + |digits|);
  }

  lemma ReadDigitsOf(before: string, digits: string, rest: string)
    requires digits != "" && AllDigits(digits) && rest != "" && !IsDigit(rest[0])
    ensures ReadDigits(before + (digits + rest), |before|) == Some(Scanned(ReadNat(digits), rest))
  {
    Middle(before, digits, rest);
    DigitsInMiddle(before + (digits + rest), |before|, digits, rest);
  }

  lemma ReadNegative(digits: string, rest: string)
    requires digits != "" && AllDigits(digits) && rest != "" && !IsDigit(rest[0])
    ensures ReadNumber("-" + digits + rest) == Some(Scanned(Negated(ReadNat(digits)), rest))
    ensures ("-" + digits + rest)[0] != '"'
  {
    ReadDigitsOf("-", digits, rest);
    Associate("-", digits, rest);
  }

  lemma ReadNonnegative(digits: string, rest: string)
    requires digits != "" && AllDigits(digits) && rest != "" && !IsDigit(rest[0])
    ensures ReadNumber(digits + rest) == Some(Scanned(ReadNat(digits), rest))
    ensures (digits + rest)[0] != '"'
  {
    ReadDigitsOf("", digits, rest);
    assert "" + (digits + rest) == digits + rest;
    assert IsDigit(digits[0]) && (digits + rest)[0] == digits[0];
  }

  lemma ReadPrintedNumber(n: int, rest: string)
    requires rest != "" && !IsDigit(rest[0])
    ensures ReadNumber(PrintInt(n) + rest) == Some(Scanned(n, rest))
    ensures (PrintInt(n) + rest)[0] != '"'
  {
    if n < 0 {
      ReadPrint(-n);
      ReadNegative(PrintNat(-n), rest);
    } else {
      ReadPrint(n);
      ReadNonnegative(PrintNat(n), rest);
    }
  }

  lemma ReadNumberMember(key: string, n: int, rest: string)
    requires PlainKey(key) && rest != "" && !IsDigit(rest[0])
    ensures ReadMember(InQuotes(key) + ":" + PrintInt(n) + rest) == Some(Scanned(Member(key, Num(n)), rest))
  {
    var number := PrintInt(n) + rest;
    Associate(InQuotes(key) + ":", PrintInt(n), rest);
    Associate(InQuotes(key), ":", number);
    ReadKey(key, ":" + number);
    Behind(':', number);
    ReadPrintedNumber(n, rest);
  }

  lemma ReadLastMember(o: int)
    ensures ReadMembers(InQuotes("orientation") + ":" + PrintInt(o) + "}") == Some([Member("orientation", Num(o))])
  {
    assert PlainKey("orientation");
    ReadNumberMember("orientation", o, "}");
  }

  lemma {:induction false} LinesAreFields(os: string, fs: seq<Field>, k: nat)
    requires k <= |fs|
    ensures WriteLines(os, fs, k) == os + PrintFields(fs[k..])
    decreases |fs| - k
  {
    if k < |fs| {
      LinesAreFields(os + PrintField(fs[k]), fs, k + 1);
      assert fs[k..][1..] == fs[k + 1..];
      Associate(os, PrintField(fs[k]), PrintFields(fs[k + 1..]));
    }
  }

  // ---------------------------------------------------------------- the record

  /** What the reader should see: every field under its own key. */
  function RecordMembers(r: Record): seq<Member> {
    [Member("sequence", Str(r.sequenceName)), Member("source_path", Str(r.sourcePath)),
     Member("source_hash", Str(r.sourceHash)),
     Member("output_path", Str(r.outputPath)), Member("output_hash", Str(r.outputHash)),
     Member("camera_model", Str(r.cameraModel)),
     Member("capture_date", Str(r.captureDate)), Member("capture_time", Str(r.captureTime)),
     Member("folder_schema", Str(r.folderSchema)), Member("status", Str(StatusName(r.status))),
     Member("created_at", Str(r.createdAt)), Member("completed_at", Str(r.completedAt)),
     Member("orientation", Num(r.orientation))]
  }

  lemma MembersOfRecord(r: Record)
    ensures Members(StringFields(r)) + [Member("orientation", Num(r.orientation))] == RecordMembers(r)
  {
    MembersByIndex(StringFields(r));
    FieldsByIndex(r);
  }

  lemma KeysPlainA()
    ensures PlainKey("sequence") && PlainKey("source_path") && PlainKey("source_hash") && PlainKey("output_path")
  {
  }

  lemma KeysPlainB()
    ensures PlainKey("output_hash") && PlainKey("camera_model") && PlainKey("capture_date") && PlainKey("capture_time")
  {
  }

  lemma KeysPlainC()
    ensures PlainKey("folder_schema") && PlainKey("status") && PlainKey("created_at") && PlainKey("completed_at")
  {
  }

  lemma KeysPlain(r: Record)
    ensures PlainKeys(StringFields(r))
  {
    KeysPlainA();
    KeysPlainB();
    KeysPlainC();
  }

  /** No control characters other than newline, carriage return and tab. */
  predicate PrintableRecord(r: Record) {
    && Printable(r.sequenceName) && Printable(r.sourcePath) && Printable(r.sourceHash) && Printable(r.outputPath)
    && Printable(r.outputHash) && Printable(r.cameraModel) && Printable(r.captureDate) && Printable(r.captureTime)
    && Printable(r.folderSchema) && Printable(r.createdAt) && Printable(r.completedAt)
  }

  lemma StatusIsPlain(s: Status)
    ensures Escape(StatusName(s)) == StatusName(s) && Printable(StatusName(s))
  {
    assert PlainKey(StatusName(s));
    PlainIsUnescaped(StatusName(s));
  }

  lemma FieldsPrintable(r: Record)
    ensures AllPrintable(StringFields(r)) <==> PrintableRecord(r)
  {
    var fs := StringFields(r);
    StatusIsPlain(r.status);
    if AllPrintable(fs) {
      assert Printable(fs[0].text) && Printable(fs[1].text) && Printable(fs[2].text) && Printable(fs[3].text);
      assert Printable(fs[4].text) && Printable(fs[5].text) && Printable(fs[6].text) && Printable(fs[7].text);
      assert Printable(fs[8].text) && Printable(fs[10].text) && Printable(fs[11].text);
    }
  }

  /**
   The reader recovers every field of the record if and only if its strings can
   be printed; otherwise it rejects the text.
   */
  lemma RecordRoundTrip(r: Record)
    ensures ReadObject(RecordToJson(r)) == if PrintableRecord(r) then Some(RecordMembers(r)) else None
  {
    var fs, tail := StringFields(r), InQuotes("orientation") + ":" + PrintInt(r.orientation) + "}";
    LinesAreFields("{", fs, 0);
    assert fs[0..] == fs;
    assert RecordToJson(r) == "{" + PrintFields(fs) + tail;
    Associate("{", PrintFields(fs), tail);
    Behind('{', PrintFields(fs) + tail);
    KeysPlain(r);
    FieldsPrintable(r);
    ReadStringMembers(fs, tail);
    ReadLastMember(r.orientation);
    MembersOfRecord(r);
  }

  /** What a client that looks a key up in the text finds. */
  function LookUp(text: string, key: string): Option<Value> {
    match ReadObject(text)
    case None => None
    case Some(ms) => FirstValue(ms, key)
  }

  function FirstValue(ms: seq<Member>, key: string): Option<Value> {
    if ms == [] then None else if ms[0].key == key then Some(ms[0].value) else FirstValue(ms[1..], key)
  }

  lemma {:induction false} FirstValueAt(ms: seq<Member>, k: nat)
    requires k < |ms| && forall i :: 0 <= i < k ==> ms[i].key != ms[k].key
    ensures FirstValue(ms, ms[k].key) == Some(ms[k].value)
    decreases k
  {
    if k == 0 {
    } else {
      assert ms[1..][k - 1] == ms[k] && ms[0].key != ms[k].key;
      FirstValueAt(ms[1..], k - 1);
    }
  }

  function Keys(): seq<string> {
    ["sequence", "source_path", "source_hash", "output_path", "output_hash", "camera_model", "capture_date",
     "capture_time", "folder_schema", "status", "created_at", "completed_at", "orientation"]
  }

  lemma KeysDiffer(i: nat, j: nat)
    requires i < j < 13
    ensures Keys()[i] != Keys()[j]
  {
    var a, b := Keys()[i], Keys()[j];
    if |a| == |b| {
      assert a[0] != b[0] || a[2] != b[2] || a[|a| - 1] != b[|a| - 1] || (|a| > 8 && (a[7] != b[7] || a[8] != b[8]));
    }
  }

  lemma KeyedMember(r: Record, k: nat)
    requires k < 13 && PrintableRecord(r)
    ensures LookUp(RecordToJson(r), Keys()[k]) == Some(RecordMembers(r)[k].value)
  {
    RecordRoundTrip(r);
    var ms := RecordMembers(r);
    assert forall i :: 0 <= i < 13 ==> ms[i].key == Keys()[i];
    forall i | 0 <= i < k ensures ms[i].key != ms[k].key {
      KeysDiffer(i, k);
    }
    FirstValueAt(ms, k);
  }

  /** A client finds every field of a printable record under its own key. */
  lemma SourceFieldsAreFound(r: Record)
    requires PrintableRecord(r)
    ensures var text := RecordToJson(r);
            && LookUp(text, "sequence") == Some(Str(r.sequenceName))
            && LookUp(text, "source_path") == Some(Str(r.sourcePath))
            && LookUp(text, "source_hash") == Some(Str(r.sourceHash))
            && LookUp(text, "output_path") == Some(Str(r.outputPath))
            && LookUp(text, "output_hash") == Some(Str(r.outputHash))
            && LookUp(text, "camera_model") == Some(Str(r.cameraModel))
  {
    KeyedMember(r, 0);
    KeyedMember(r, 1);
    KeyedMember(r, 2);
    KeyedMember(r, 3);
    KeyedMember(r, 4);
    KeyedMember(r, 5);
  }

  lemma CaptureFieldsAreFound(r: Record)
    requires PrintableRecord(r)
    ensures var text := RecordToJson(r);
            && LookUp(text, "capture_date") == Some(Str(r.captureDate))
            && LookUp(text, "capture_time") == Some(Str(r.captureTime))
            && LookUp(text, "folder_schema") == Some(Str(r.folderSchema))
            && LookUp(text, "created_at") == Some(Str(r.createdAt))
            && LookUp(text, "completed_at") == Some(Str(r.completedAt))
            && LookUp(text, "orientation") == Some(Num(r.orientation))
  {
    KeyedMember(r, 6);
    KeyedMember(r, 7);
    KeyedMember(r, 8);
    KeyedMember(r, 10);
    KeyedMember(r, 11);
    KeyedMember(r, 12);
  }

  /** The status is found under the name the database uses for it. */
  lemma StatusIsFound(r: Record)
    requires PrintableRecord(r)
    ensures var found := LookUp(RecordToJson(r), "status");
            && (found == Some(Str("pending")) <==> r.status.Pending?)
            && (found == Some(Str("converting")) <==> r.status.Converting?)
            && (found == Some(Str("completed")) <==> r.status.Completed?)
            && (found == Some(Str("failed")) <==> r.status.Failed?)
            && (found == Some(Str("restored")) <==> r.status.Restored?)
            && (found == Some(Str("legacy")) <==> r.status.Legacy?)
  {
    KeyedMember(r, 9);
    StatusNamesDiffer(r.status, r.status);
    StatusLetters(r.status);
  }

  lemma StatusLetters(s: Status)
    ensures StatusName(s)[0] == (match s case Pending => 'p' case Converting => 'c' case Completed => 'c'
                                        case Failed => 'f' case Restored => 'r' case Legacy => 'l')
    ensures s.Converting? ==> |StatusName(s)| == 10
    ensures s.Completed? ==> |StatusName(s)| == 9
  {
  }

  lemma {:induction false} MembersByIndex(fs: seq<Field>)
    ensures |Members(fs)| == |fs|
    ensures forall i :: 0 <= i < |fs| ==> Members(fs)[i] == Member(fs[i].key, Str(fs[i].text))
  {
    if fs == [] {
    } else {
      MembersByIndex(fs[1..]);
    }
  }

  /** Different records never share their text. */
  lemma RecordsAreDistinguished(r1: Record, r2: Record)
    requires PrintableRecord(r1) && PrintableRecord(r2) && RecordToJson(r1) == RecordToJson(r2)
    ensures r1 == r2
  {
    RecordRoundTrip(r1);
    RecordRoundTrip(r2);
    SameMembers(r1, r2);
  }

  lemma SameMembers(r1: Record, r2: Record)
    requires RecordMembers(r1) == RecordMembers(r2)
    ensures r1 == r2
  {
    var m1, m2 := RecordMembers(r1), RecordMembers(r2);
    assert m1[0] == m2[0] && m1[1] == m2[1] && m1[2] == m2[2] && m1[3] == m2[3] && m1[4] == m2[4] && m1[5] == m2[5];
    assert m1[6] == m2[6] && m1[7] == m2[7] && m1[8] == m2[8] && m1[9] == m2[9] && m1[10] == m2[10] && m1[11] == m2[11];
    assert m1[12] == m2[12];
    StatusNamesDiffer(r1.status, r2.status);
  }

  lemma StatusNamesDiffer(a: Status, b: Status)
    requires StatusName(a) == StatusName(b)
    ensures a == b
  {
    var x, y := StatusName(a), StatusName(b);
    assert x[0] == y[0] && |x| == |y|;
  }

  lemma FieldsByIndex(r: Record)
    ensures var fs := StringFields(r);
            && |fs| == 12
            && fs[0] == Field("sequence", r.sequenceName) && fs[1] == Field("source_path", r.sourcePath)
            && fs[2] == Field("source_hash", r.sourceHash) && fs[3] == Field("output_path", r.outputPath)
            && fs[4] == Field("output_hash", r.outputHash) && fs[5] == Field("camera_model", r.cameraModel)
            && fs[6] == Field("capture_date", r.captureDate) && fs[7] == Field("capture_time", r.captureTime)
            && fs[8] == Field("folder_schema", r.folderSchema) && fs[9] == Field("status", StatusName(r.status))
            && fs[10] == Field("created_at", r.createdAt) && fs[11] == Field("completed_at", r.completedAt)
  {
  }

  /** `record_to_json`, line by line; the status name is written without escaping. */
  method WriteRecord(r: Record) returns (os: string)
    ensures os == RecordToJson(r)
  {
    FieldsByIndex(r);
    ghost var fs := StringFields(r);
    os := "{";
    os := WriteSourceLines(os, r, fs);
    os := WriteCaptureLines(os, r, fs);
    os := os + (InQuotes("orientation") + ":" + PrintInt(r.orientation) + "}");
  }

  method WriteSourceLines(prefix: string, r: Record, ghost fs: seq<Field>) returns (os: string)
    requires |fs| == 12
    requires fs[0] == Field("sequence", r.sequenceName) && fs[1] == Field("source_path", r.sourcePath)
    requires fs[2] == Field("source_hash", r.sourceHash) && fs[3] == Field("output_path", r.outputPath)
    requires fs[4] == Field("output_hash", r.outputHash) && fs[5] == Field("camera_model", r.cameraModel)
    ensures WriteLines(os, fs, 6) == WriteLines(prefix, fs, 0)
  {
    os := WriteLine(prefix, "sequence", r.sequenceName, fs, 0);
    os := WriteLine(os, "source_path", r.sourcePath, fs, 1);
    os := WriteLine(os, "source_hash", r.sourceHash, fs, 2);
    os := WriteLine(os, "output_path", r.outputPath, fs, 3);
    os := WriteLine(os, "output_hash", r.outputHash, fs, 4);
    os := WriteLine(os, "camera_model", r.cameraModel, fs, 5);
  }

  method WriteCaptureLines(prefix: string, r: Record, ghost fs: seq<Field>) returns (os: string)
    requires |fs| == 12
    requires fs[6] == Field("capture_date", r.captureDate) && fs[7] == Field("capture_time", r.captureTime)
    requires fs[8] == Field("folder_schema", r.folderSchema) && fs[9] == Field("status", StatusName(r.status))
    requires fs[10] == Field("created_at", r.createdAt) && fs[11] == Field("completed_at", r.completedAt)
    ensures os == WriteLines(prefix, fs, 6)
  {
    os := WriteLine(prefix, "capture_date", r.captureDate, fs, 6);
    os := WriteLine(os, "capture_time", r.captureTime, fs, 7);
    os := WriteLine(os, "folder_schema", r.folderSchema, fs, 8);
    os := WriteStatusLine(os, r.status, fs, 9);
    os := WriteLine(os, "created_at", r.createdAt, fs, 10);
    os := WriteLine(os, "completed_at", r.completedAt, fs, 11);
  }

  method WriteLine(prefix: string, key: string, text: string, ghost fs: seq<Field>, ghost k: nat) returns (os: string)
    requires k < |fs| && fs[k] == Field(key, text)
    ensures WriteLines(os, fs, k + 1) == WriteLines(prefix, fs, k)
  {
    var escaped := JsonEscape(text);
    os := prefix + (InQuotes(key) + ":" + InQuotes(escaped) + ",");
  }

  method WriteStatusLine(prefix: string, status: Status, ghost fs: seq<Field>, ghost k: nat) returns (os: string)
    requires k < |fs| && fs[k] == Field("status", StatusName(status))
    ensures WriteLines(os, fs, k + 1) == WriteLines(prefix, fs, k)
  {
    StatusIsPlain(status);
    os := prefix + (InQuotes("status") + ":" + InQuotes(StatusName(status)) + ",");
  }
}
