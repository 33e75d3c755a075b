/**
 How event data travels to the server: as JSON text inside a GraphQL string literal inside a JSON string.
 The text is escaped once by quoting and once more by replacing; the reader is a JSON string decoder
 (section 7 of RFC 8259) followed by a GraphQL string decoder (section 2.9.4 of the GraphQL specification,
 October 2021).
 */
module GqlPayload {
  import opened Prelude
  import opened Text

  // ----- writing ------------------------------------------------------------------------------

  function HexDigit(n: nat): (r: char)
    requires n < 16
    ensures HexValue(r) == n && r != '"' && r != '\\'
  {
    if n < 10 then '0' + n as char else 'a' + (n - 10) as char
  }

  /** The last four hexadecimal digits of a number. */
  function FourDigits(n: nat): (r: string)
    ensures |r| == 4 && '"' !in r && '\\' !in r
  {
    [HexDigit(n / 4096 % 16), HexDigit(n / 256 % 16), HexDigit(n / 16 % 16), HexDigit(n % 16)]
  }

  /** The letter of a control character that has an escape of its own. */
  function ControlLetter(c: char): Option<char> {
    if c == '\U{7}' then Some('a')
    else if c == '\U{8}' then Some('b')
    else if c == '\U{C}' then Some('f')
    else if c == '\n' then Some('n')
    else if c == '\r' then Some('r')
    else if c == '\t' then Some('t')
    else if c == '\U{B}' then Some('v')
    else None
  }

  function NumericEscape(c: char): (r: string)
    ensures |r| >= 2 && r[0] == '\\' && '"' !in r && Last(r) != '\\'
  {
    var digits := FourDigits(c as int);
    if c < ' ' then "\\x" + digits[2..]
    else if c as int < 0x1_0000 then "\\u" + digits
    else "\\U" + FourDigits(c as int / 0x1_0000) + digits
  }

  /** How Go quotes one character; `prints` says which characters are written as they are. */
  function QuoteChar(c: char, prints: char -> bool): string {
    if c == '"' || c == '\\' then ['\\', c]
    else if prints(c) then [c]
    else if ControlLetter(c).Some? then ['\\', ControlLetter(c).value]
    else NumericEscape(c)
  }

  /** What Go prints: all of printable ASCII, no control characters, and of the rest what its tables say. */
  ghost predicate GoPrints(prints: char -> bool) {
    forall c :: (' ' <= c <= '~' ==> prints(c)) && (c < ' ' ==> !prints(c))
  }

  function Mapped(s: string, f: char -> string): string {
    if s == "" then "" else f(s[0]) + Mapped(s[1..], f)
  }

  function Quoting(prints: char -> bool): char -> string {
    (c: char) => QuoteChar(c, prints)
  }

  function Quote(s: string, prints: char -> bool): string {
    "\"" + Mapped(s, Quoting(prints)) + "\""
  }

  const ESCAPED_QUOTE := "\\\""
  const TWICE_ESCAPED_QUOTE := "\\\\\\\""

  function ReplaceQuotes(s: string): string {
    ReplaceAll(s, ESCAPED_QUOTE, TWICE_ESCAPED_QUOTE)
  }

  function MarshalGQLData(data: string, prints: char -> bool): (r: string)
    ensures |r| >= 2
  {
    ReplaceNeverShortens(Quote(data, prints));
    ReplaceQuotes(Quote(data, prints))
  }

  /** The fields of the request that are copied into the payload as they are. */
  datatype Request = Request(clusterID: string, accessKey: string, version: string, completed: string,
                             workflowID: string, uid: string, name: string, executedBy: string)

  /** A part of the query text: bare, or a string in quotes. */
  datatype Piece = Bare(text: string) | Quoted(text: string)

  /** The text before the data. */
  function Head(r: Request): seq<Piece> {
    RunPieces(r) + ClusterPieces(r) + UserPieces(r)
  }

  function RunPieces(r: Request): seq<Piece> {
    [Bare("mutation { "), Bare("chaosWorkflowRun(request:"), Bare("{ workflowID: "), Quoted(r.workflowID),
     Bare(", workflowRunID: "), Quoted(r.uid), Bare(", completed: "), Bare(r.completed),
     Bare(", workflowName:"), Quoted(r.name)]
  }

  function ClusterPieces(r: Request): seq<Piece> {
    [Bare(", clusterID: {clusterID: "), Quoted(r.clusterID), Bare(", version: "), Quoted(r.version),
     Bare(", accessKey: "), Quoted(r.accessKey)]
  }

  function UserPieces(r: Request): seq<Piece> {
    [Bare("}, executedBy:"), Quoted(r.executedBy), Bare(", executionData:")]
  }

  /** The pieces as text, with the quotes written as `q`. */
  function Written(pieces: seq<Piece>, q: string): string {
    if pieces == [] then ""
    else
      var p := pieces[0];
      (if p.Bare? then p.text else q + p.text + q) + Written(pieces[1..], q)
  }

  const TAIL := "} )}"
  const OPENING := "{\"query\":\""

  function GenerateWorkflowPayload(r: Request, data: string, prints: char -> bool): string {
    var processed := MarshalGQLData(data, prints);
    OPENING + Written(Head(r), ESCAPED_QUOTE) + ESCAPED_QUOTE + processed[1..|processed| - 1] + ESCAPED_QUOTE
    + TAIL + "\"}"
  }

  // ----- reading ------------------------------------------------------------------------------

  /** A decoded string literal, and what follows its closing quote. */
  datatype Token = Token(value: string, rest: string)

  function HexValue(c: char): int {
    if '0' <= c <= '9' then (c - '0') as int
    else if 'a' <= c <= 'f' then (c - 'a') as int + 10
    else if 'A' <= c <= 'F' then (c - 'A') as int + 10
    else -1
  }

  predicate Hex(c: char) {
    HexValue(c) >= 0
  }

  function SimpleEscape(c: char): Option<char> {
    if c == '"' || c == '\\' || c == '/' then Some(c)
    else if c == 'b' then Some('\U{8}')
    else if c == 'f' then Some('\U{C}')
    else if c == 'n' then Some('\n')
    else if c == 'r' then Some('\r')
    else if c == 't' then Some('\t')
    else None
  }

  /** The character four hexadecimal digits stand for; a lone surrogate is none. */
  function FromHex(s: string): Option<char>
    requires |s| >= 4
  {
    if Hex(s[0]) && Hex(s[1]) && Hex(s[2]) && Hex(s[3]) then
      var code := ((HexValue(s[0]) * 16 + HexValue(s[1])) * 16 + HexValue(s[2])) * 16 + HexValue(s[3]);
      if code < 0xD800 || 0xE000 <= code < 0x1_0000 then Some(code as char) else None
    else
      None
  }

  /**
   Decodes a string literal whose opening quote was read; `raw` says which characters may stand for
   themselves. Both decoders have this form.
   */
  function StringLiteral(s: string, raw: char -> bool): Option<Token> {
    if s == "" then None
    else if s[0] == '"' then Some(Token("", s[1..]))
    else if s[0] == '\\' then
      if |s| >= 2 && SimpleEscape(s[1]).Some? then Prepend(SimpleEscape(s[1]).value, StringLiteral(s[2..], raw))
      else if |s| >= 6 && s[1] == 'u' && FromHex(s[2..]).Some? then
        Prepend(FromHex(s[2..]).value, StringLiteral(s[6..], raw))
      else None
    else if raw(s[0]) then Prepend(s[0], StringLiteral(s[1..], raw))
    else None
  }

  function Prepend(c: char, t: Option<Token>): Option<Token> {
    if t.Some? then Some(Token([c] + t.value.value, t.value.rest)) else None
  }

  /** JSON strings hold anything but control characters. */
  const JSON: char -> bool := c => c >= ' '

  /** GraphQL strings also hold tabs; characters beyond U+FFFF are taken as readers of UTF-16 text take them. */
  const GRAPHQL: char -> bool := c => c >= ' ' || c == '\t'

  /** Text that both notations copy as it is. */
  predicate Plain(s: string) {
    forall i :: 0 <= i < |s| ==> s[i] >= ' ' && s[i] != '"' && s[i] != '\\'
  }

  // ----- what the writer produces -------------------------------------------------------------

  /** How a character of the data comes out of both escapes. */
  function Escaping(prints: char -> bool): char -> string {
    (c: char) => if c == '"' then TWICE_ESCAPED_QUOTE else QuoteChar(c, prints)
  }

  /** The data after both escapes. */
  function Escaped(s: string, prints: char -> bool): string {
    Mapped(s, Escaping(prints))
  }

  function EmbeddedChar(c: char): string {
    if c == '"' then ESCAPED_QUOTE else [c]
  }

  /** The data as it stands in the GraphQL text: its quotes escaped, its backslashes not. */
  function Embedded(s: string): string {
    if s == "" then "" else EmbeddedChar(s[0]) + Embedded(s[1..])
  }

  lemma {:induction false} ReplaceNeverShortens(s: string)
    ensures |ReplaceAll(s, ESCAPED_QUOTE, TWICE_ESCAPED_QUOTE)| >= |s|
    decreases |s|
  {
    if s != "" {
      if ESCAPED_QUOTE <= s {
        ReplaceNeverShortens(s[2..]);
      } else {
        ReplaceNeverShortens(s[1..]);
      }
    }
  }

  /** What replacing quotes amounts to, one character at a time. */
  ghost predicate ReplacesQuotes(replace: string -> string) {
    && (forall tail :: replace(ESCAPED_QUOTE + tail) == TWICE_ESCAPED_QUOTE + replace(tail))
    && (forall c, tail {:trigger replace([c] + tail)} ::
          c != '\\' || tail == "" || tail[0] != '"' ==> replace([c] + tail) == [c] + replace(tail))
  }

  lemma ReplaceQuotesDoes()
    ensures ReplacesQuotes(ReplaceQuotes)
  {
    forall tail
      ensures ReplaceQuotes(ESCAPED_QUOTE + tail) == TWICE_ESCAPED_QUOTE + ReplaceQuotes(tail)
    {
      assert (ESCAPED_QUOTE + tail)[2..] == tail;
    }
    forall c, tail | c != '\\' || tail == "" || tail[0] != '"'
      ensures ReplaceQuotes([c] + tail) == [c] + ReplaceQuotes(tail)
    {
      var s := [c] + tail;
      assert s[1..] == tail;
      if |s| >= 2 {
        assert s[1] == tail[0];
      }
    }
  }

  /** Text without quotes is copied, unless its last character is a backslash in front of a quote. */
  lemma {:induction false} ReplaceCopies(x: string, tail: string, replace: string -> string)
    requires ReplacesQuotes(replace) && '"' !in x
    requires x != "" && Last(x) == '\\' ==> tail == "" || tail[0] != '"'
    ensures replace(x + tail) == x + replace(tail)
  {
    if x == "" {
      assert x + tail == tail;
    } else {
      var more := x[1..] + tail;
      assert x[1..] != "" ==> Last(x[1..]) == Last(x) && more[0] == x[1];
      assert x[1..] == "" ==> more == tail && Last(x) == x[0];
      ReplaceCopies(x[1..], tail, replace);
      assert x + tail == [x[0]] + more;
      assert replace([x[0]] + more) == [x[0]] + replace(more);
    }
  }

  /** A quoted character starts with no bare quote, and only those of quotes contain one. */
  lemma QuoteCharShape(c: char, prints: char -> bool)
    ensures var q := QuoteChar(c, prints);
            && q != "" && q[0] != '"'
            && (c == '"' ==> q == ESCAPED_QUOTE)
            && (c != '"' ==> '"' !in q)
            && (Last(q) == '\\' ==> c == '\\')
  {
  }

  /** Whatever follows, `replace` turns the image of a character under f into the one under g. */
  ghost predicate ReplacesChar(replace: string -> string, f: char -> string, g: char -> string, c: char) {
    && f(c) != "" && f(c)[0] != '"'
    && forall tail :: (c == '\\' ==> tail == "" || tail[0] != '"') ==> replace(f(c) + tail) == g(c) + replace(tail)
  }

  /** What one character becomes under both escapes. */
  lemma ReplaceQuotedChar(c: char, prints: char -> bool, replace: string -> string)
    requires ReplacesQuotes(replace)
    ensures ReplacesChar(replace, Quoting(prints), Escaping(prints), c)
  {
    QuoteCharShape(c, prints);
    ReplacePiece(c, QuoteChar(c, prints), replace);
  }

  lemma ReplacePiece(c: char, q: string, replace: string -> string)
    requires ReplacesQuotes(replace)
    requires (c == '"' ==> q == ESCAPED_QUOTE) && (c != '"' ==> '"' !in q) && q != "" && (Last(q) == '\\' ==> c == '\\')
    ensures forall tail :: (c == '\\' ==> tail == "" || tail[0] != '"') ==>
              replace(q + tail) == (if c == '"' then TWICE_ESCAPED_QUOTE else q) + replace(tail)
  {
    forall tail | c != '"' && (c == '\\' ==> tail == "" || tail[0] != '"')
      ensures replace(q + tail) == q + replace(tail)
    {
      ReplaceCopies(q, tail, replace);
    }
  }

  lemma ConcatAssociates(a: string, b: string, c: string)
    ensures a + (b + c) == a + b + c
  {
  }

  /** Mapped text is empty or starts as its first character's image does. */
  lemma MappedStart(s: string, f: char -> string, rest: string)
    requires s != "" && f(s[0]) != ""
    ensures (Mapped(s, f) + rest)[0] == f(s[0])[0]
  {
  }

  ghost predicate ReplacesChars(replace: string -> string, f: char -> string, g: char -> string) {
    forall c :: ReplacesChar(replace, f, g, c)
  }

  lemma {:induction false} ReplaceMapped(s: string, f: char -> string, g: char -> string, rest: string,
                                         replace: string -> string)
    requires ReplacesChars(replace, f, g)
    requires s == "" || Last(s) != '\\' || rest == "" || rest[0] != '"'
    ensures replace(Mapped(s, f) + rest) == Mapped(s, g) + replace(rest)
  {
    if s == "" {
      assert Mapped(s, f) + rest == rest;
      assert "" + replace(rest) == replace(rest);
    } else {
      var tail := Mapped(s[1..], f) + rest;
      assert ReplacesChar(replace, f, g, s[0]);
      ReplaceMapped(s[1..], f, g, rest, replace);
      if s[1..] != "" {
        assert ReplacesChar(replace, f, g, s[1..][0]);
        MappedStart(s[1..], f, rest);
      } else {
        assert tail == rest && Last(s) == s[0];
      }
      assert s[0] == '\\' ==> tail == "" || tail[0] != '"';
      ConcatAssociates(f(s[0]), Mapped(s[1..], f), rest);
      assert replace(f(s[0]) + tail) == g(s[0]) + replace(tail);
      ConcatAssociates(g(s[0]), Mapped(s[1..], g), replace(rest));
    }
  }

  lemma QuotedThenReplaced(data: string, f: char -> string, g: char -> string, replace: string -> string)
    requires ReplacesQuotes(replace) && replace("") == "" && ReplacesChars(replace, f, g)
    requires data == "" || Last(data) != '\\'
    ensures replace("\"" + Mapped(data, f) + "\"") == "\"" + Mapped(data, g) + "\""
  {
    var inner := Mapped(data, f) + "\"";
    assert "\"" + Mapped(data, f) + "\"" == ['"'] + inner;
    ReplaceMapped(data, f, g, "\"", replace);
    assert ['"'] + "" == "\"";
    assert replace(['"'] + "") == ['"'] + "";
    assert replace(['"'] + inner) == ['"'] + replace(inner);
    assert "\"" + Mapped(data, g) + "\"" == ['"'] + (Mapped(data, g) + "\"");
  }

  lemma QuotingIsReplaced(prints: char -> bool, replace: string -> string)
    requires ReplacesQuotes(replace)
    ensures ReplacesChars(replace, Quoting(prints), Escaping(prints))
  {
    forall c
      ensures ReplacesChar(replace, Quoting(prints), Escaping(prints), c)
    {
      ReplaceQuotedChar(c, prints, replace);
    }
  }

  /** Quoting and then replacing escapes character by character; JSON text, which this is for, ends in a bracket. */
  lemma MarshalledIsEscaped(data: string, prints: char -> bool)
    requires data == "" || Last(data) != '\\'
    ensures MarshalGQLData(data, prints) == "\"" + Escaped(data, prints) + "\""
  {
    ReplaceQuotesDoes();
    QuotingIsReplaced(prints, ReplaceQuotes);
    QuotedThenReplaced(data, Quoting(prints), Escaping(prints), ReplaceQuotes);
  }

  // ----- decoding in pieces -------------------------------------------------------------------

  type Reader = string -> Option<Token>

  /** Reading a string literal in one of the notations. */
  function Reading(raw: char -> bool): Reader {
    s => StringLiteral(s, raw)
  }

  /** The notation lets every character but controls stand for itself. */
  ghost predicate Lenient(raw: char -> bool) {
    forall c :: c >= ' ' ==> raw(c)
  }

  /** Whatever follows it, the piece a decodes to v and does not end the literal. */
  ghost predicate Decodes(a: string, v: string, read: Reader) {
    forall rest :: read(a + rest) == PrependAll(v, read(rest))
  }

  function PrependAll(v: string, t: Option<Token>): Option<Token> {
    if t.Some? then Some(Token(v + t.value.value, t.value.rest)) else None
  }

  lemma DecodesConcat(a: string, v: string, b: string, w: string, read: Reader)
    requires Decodes(a, v, read) && Decodes(b, w, read)
    ensures Decodes(a + b, v + w, read)
  {
    forall rest
      ensures read(a + b + rest) == PrependAll(v + w, read(rest))
    {
      assert a + b + rest == a + (b + rest);
      assert read(b + rest) == PrependAll(w, read(rest));
      if read(rest).Some? {
        var x := read(rest).value.value;
        assert v + (w + x) == v + w + x;
      }
    }
  }

  lemma NothingDecodes(read: Reader)
    ensures Decodes("", "", read)
  {
    forall rest
      ensures read("" + rest) == PrependAll("", read(rest))
    {
      assert "" + rest == rest;
      if read(rest).Some? {
        assert "" + read(rest).value.value == read(rest).value.value;
      }
    }
  }

  lemma OneCharDecodes(c: char, raw: char -> bool)
    requires raw(c) && c != '"' && c != '\\'
    ensures Decodes([c], [c], Reading(raw))
  {
    forall rest
      ensures Reading(raw)([c] + rest) == PrependAll([c], Reading(raw)(rest))
    {
      assert ([c] + rest)[1..] == rest;
    }
  }

  lemma EscapeDecodes(c: char, v: char, raw: char -> bool)
    requires SimpleEscape(c) == Some(v)
    ensures Decodes(['\\', c], [v], Reading(raw))
  {
    forall rest
      ensures Reading(raw)(['\\', c] + rest) == PrependAll([v], Reading(raw)(rest))
    {
      assert (['\\', c] + rest)[2..] == rest;
    }
  }

  lemma QuoteAndBackslashDecode(raw: char -> bool)
    ensures Decodes(ESCAPED_QUOTE, "\"", Reading(raw))
    ensures Decodes("\\\\", "\\", Reading(raw))
    ensures Decodes(TWICE_ESCAPED_QUOTE, ESCAPED_QUOTE, Reading(raw))
  {
    EscapeDecodes('"', '"', raw);
    EscapeDecodes('\\', '\\', raw);
    DecodesConcat("\\\\", "\\", ESCAPED_QUOTE, "\"", Reading(raw));
    assert "\\\\" + ESCAPED_QUOTE == TWICE_ESCAPED_QUOTE && "\\" + "\"" == ESCAPED_QUOTE;
  }

  lemma {:induction false} PlainDecodes(s: string, raw: char -> bool)
    requires Plain(s) && Lenient(raw)
    ensures Decodes(s, s, Reading(raw))
  {
    if s == "" {
      NothingDecodes(Reading(raw));
    } else {
      PlainDecodes(s[1..], raw);
      OneCharDecodes(s[0], raw);
      DecodesConcat([s[0]], [s[0]], s[1..], s[1..], Reading(raw));
      assert [s[0]] + s[1..] == s;
    }
  }

  lemma {:induction false} MappedDecodes(s: string, f: char -> string, g: char -> string, read: Reader)
    requires forall c :: c in s ==> Decodes(f(c), g(c), read)
    ensures Decodes(Mapped(s, f), Mapped(s, g), read)
  {
    if s == "" {
      NothingDecodes(read);
    } else {
      assert s[0] in s;
      MappedDecodes(s[1..], f, g, read);
      DecodesConcat(f(s[0]), g(s[0]), Mapped(s[1..], f), Mapped(s[1..], g), read);
    }
  }

  lemma {:induction false} EmbeddedIsMapped(s: string)
    ensures Embedded(s) == Mapped(s, EmbeddedChar)
  {
    if s != "" {
      EmbeddedIsMapped(s[1..]);
    }
  }

  lemma {:induction false} MappedToItself(s: string)
    ensures Mapped(s, c => [c]) == s
  {
    if s != "" {
      MappedToItself(s[1..]);
    }
  }

  lemma DigitValues(n: nat)
    requires n < 0x1_0000
    ensures ((n / 4096 % 16 * 16 + n / 256 % 16) * 16 + n / 16 % 16) * 16 + n % 16 == n
  {
  }

  lemma DigitsReadBack(d3: nat, d2: nat, d1: nat, d0: nat, c: char, text: string)
    requires d3 < 16 && d2 < 16 && d1 < 16 && d0 < 16 && ((d3 * 16 + d2) * 16 + d1) * 16 + d0 == c as int
    requires |text| >= 4 && text[0] == HexDigit(d3) && text[1] == HexDigit(d2)
    requires text[2] == HexDigit(d1) && text[3] == HexDigit(d0)
    ensures FromHex(text) == Some(c)
  {
  }

  /** Four digits are read back as the character they were written for. */
  lemma FourDigitsReadBack(c: char, more: string)
    requires c as int < 0x1_0000
    ensures FromHex(FourDigits(c as int) + more) == Some(c)
  {
    var n := c as int;
    DigitValues(n);
    DigitsReadBack(n / 4096 % 16, n / 256 % 16, n / 16 % 16, n % 16, c, FourDigits(n) + more);
  }

  lemma FourDigitsDecode(c: char, raw: char -> bool)
    requires c as int < 0x1_0000
    ensures Decodes("\\u" + FourDigits(c as int), [c], Reading(raw))
  {
    var digits := FourDigits(c as int);
    forall rest
      ensures Reading(raw)("\\u" + digits + rest) == PrependAll([c], Reading(raw)(rest))
    {
      FourDigitsReadBack(c, rest);
      EscapeThenRest(c, digits, rest, raw);
    }
  }

  lemma EscapeThenRest(c: char, digits: string, rest: string, raw: char -> bool)
    requires |digits| == 4 && FromHex(digits + rest) == Some(c)
    ensures Reading(raw)("\\u" + digits + rest) == PrependAll([c], Reading(raw)(rest))
  {
    UnicodeEscapeDecodes(c, digits + rest, raw);
    assert "\\u" + digits + rest == "\\u" + (digits + rest);
    assert (digits + rest)[4..] == rest;
  }

  lemma UnicodeEscapeDecodes(c: char, text: string, raw: char -> bool)
    requires |text| >= 4 && FromHex(text) == Some(c)
    ensures StringLiteral("\\u" + text, raw) == PrependAll([c], StringLiteral(text[4..], raw))
  {
    var s := "\\u" + text;
    assert s[2..] == text && s[6..] == text[4..];
  }

  /** The characters whose quoted form is JSON: those that print, those with an escape JSON shares, and \u escapes. */
  predicate JsonReads(c: char, prints: char -> bool) {
    prints(c) || c in "\U{8}\U{C}\n\r\t" || (' ' <= c && c as int < 0x1_0000)
  }

  /** Decoding once undoes one of the two escapes of such a character. */
  lemma EscapedCharDecodes(c: char, prints: char -> bool)
    requires GoPrints(prints) && JsonReads(c, prints)
    ensures Decodes(Escaping(prints)(c), EmbeddedChar(c), Reading(JSON))
  {
    QuoteAndBackslashDecode(JSON);
    if c != '"' && c != '\\' {
      if prints(c) {
        OneCharDecodes(c, JSON);
      } else if ControlLetter(c).Some? {
        EscapeDecodes(ControlLetter(c).value, c, JSON);
      } else {
        FourDigitsDecode(c, JSON);
      }
    }
  }

  /** No JSON text continues with the quoted form of any other character. */
  lemma EscapedCharFails(c: char, prints: char -> bool, rest: string)
    requires GoPrints(prints) && !JsonReads(c, prints)
    ensures Reading(JSON)(Escaping(prints)(c) + rest) == None
  {
    var q := QuoteChar(c, prints);
    assert q[0] == '\\' && q[1] in "avxU";
    assert (q + rest)[0] == q[0] && (q + rest)[1] == q[1];
  }

  /** Decoding once undoes one of the two escapes of the data. */
  lemma EscapedDecodes(s: string, prints: char -> bool)
    requires GoPrints(prints) && forall c :: c in s ==> JsonReads(c, prints)
    ensures Decodes(Escaped(s, prints), Embedded(s), Reading(JSON))
  {
    forall c | c in s
      ensures Decodes(Escaping(prints)(c), EmbeddedChar(c), Reading(JSON))
    {
      EscapedCharDecodes(c, prints);
    }
    MappedDecodes(s, Escaping(prints), EmbeddedChar, Reading(JSON));
    EmbeddedIsMapped(s);
  }

  /** With any other character in the data, decoding fails. */
  lemma {:induction false} EscapedFails(s: string, prints: char -> bool, rest: string)
    requires GoPrints(prints) && exists c :: c in s && !JsonReads(c, prints)
    ensures Reading(JSON)(Escaped(s, prints) + rest) == None
  {
    var first, more := Escaping(prints)(s[0]), Escaped(s[1..], prints);
    ConcatAssociates(first, more, rest);
    if JsonReads(s[0], prints) {
      EscapedFails(s[1..], prints, rest);
      EscapedCharDecodes(s[0], prints);
      assert Reading(JSON)(first + (more + rest)) == PrependAll(EmbeddedChar(s[0]), Reading(JSON)(more + rest));
    } else {
      EscapedCharFails(s[0], prints, more + rest);
    }
  }

  /** The characters that GraphQL strings do not take as they are, or take for the start of an escape. */
  predicate Lost(c: char) {
    c == '\\' || !GRAPHQL(c)
  }

  /** Decoding again undoes the other escape, if no character is lost. */
  lemma EmbeddedDecodes(s: string)
    requires forall c :: c in s ==> !Lost(c)
    ensures Decodes(Embedded(s), s, Reading(GRAPHQL))
  {
    QuoteAndBackslashDecode(GRAPHQL);
    var itself: char -> string := c => [c];
    forall c | c in s
      ensures Decodes(EmbeddedChar(c), itself(c), Reading(GRAPHQL))
    {
      if c != '"' {
        OneCharDecodes(c, GRAPHQL);
      }
    }
    MappedDecodes(s, EmbeddedChar, itself, Reading(GRAPHQL));
    EmbeddedIsMapped(s);
    MappedToItself(s);
  }

  // ----- lost characters ----------------------------------------------------------------------

  lemma {:induction false} RestIsShorter(s: string, raw: char -> bool)
    ensures StringLiteral(s, raw).Some? ==> |StringLiteral(s, raw).value.rest| < |s|
    decreases |s|
  {
    if s != "" {
      RestIsShorter(s[1..], raw);
      if |s| >= 2 {
        RestIsShorter(s[2..], raw);
      }
      if |s| >= 6 {
        RestIsShorter(s[6..], raw);
      }
    }
  }

  lemma HexIsPlain(c: char)
    requires Hex(c)
    ensures c != '"' && c != '\\'
  {
  }

  /** A character other than quote and backslash at the front of embedded data is the data's own first one. */
  lemma PlainAtFront(s: string, tail: string, x: string)
    requires x == Embedded(s) + "\"" + tail && x[0] != '"' && x[0] != '\\'
    ensures s != "" && x == [s[0]] + (Embedded(s[1..]) + "\"" + tail)
    ensures x[1..] == Embedded(s[1..]) + "\"" + tail
  {
    assert s == "" ==> x == "\"" + tail;
    assert ("\"" + tail)[0] == '"';
    assert s != "" ==> x[0] == Embedded(s)[0];
  }

  lemma FourHexAtFront(s: string, tail: string)
    requires |Embedded(s) + "\"" + tail| >= 4 && FromHex(Embedded(s) + "\"" + tail).Some?
    ensures |s| >= 4 && (Embedded(s) + "\"" + tail)[4..] == Embedded(s[4..]) + "\"" + tail
  {
    var x := Embedded(s) + "\"" + tail;
    HexIsPlain(x[0]);
    HexIsPlain(x[1]);
    HexIsPlain(x[2]);
    HexIsPlain(x[3]);
    FourPlainAtFront(s, tail, x);
  }

  lemma FourPlainAtFront(s: string, tail: string, x: string)
    requires x == Embedded(s) + "\"" + tail && |x| >= 4
    requires forall i :: 0 <= i < 4 ==> x[i] != '"' && x[i] != '\\'
    ensures |s| >= 4 && x[4..] == Embedded(s[4..]) + "\"" + tail
  {
    PlainAtFront(s, tail, x);
    PlainAtFront(s[1..], tail, x[1..]);
    assert s[1..][1..] == s[2..] && x[1..][1..] == x[2..];
    PlainAtFront(s[2..], tail, x[2..]);
    assert s[2..][1..] == s[3..] && x[2..][1..] == x[3..];
    PlainAtFront(s[3..], tail, x[3..]);
    assert s[3..][1..] == s[4..] && x[3..][1..] == x[4..];
  }

  /**
   If GraphQL decoding of embedded data ends where the data ends, it yields at most as many characters as the
   data has, and fewer if any of them is lost.
   */
  lemma {:induction false} LostCharactersShow(s: string, tail: string)
    ensures var t := StringLiteral(Embedded(s) + "\"" + tail, GRAPHQL);
            t.Some? && |t.value.rest| == |tail| ==>
              |t.value.value| <= |s| && ((exists c :: c in s && Lost(c)) ==> |t.value.value| < |s|)
    decreases |s|
  {
    var all := Embedded(s) + "\"" + tail;
    if s == "" {
      assert all == "\"" + tail;
    } else if s[0] != '\\' {
      LostCharactersShow(s[1..], tail);
      var skip := if s[0] == '"' then 2 else 1;
      assert all[skip..] == Embedded(s[1..]) + "\"" + tail;
      assert forall c :: c in s ==> c == s[0] || c in s[1..];
    } else if |s| == 1 {
      assert Embedded(s) == "\\" + Embedded(s[1..]);
      assert all == "\\\"" + tail;
      assert all[2..] == tail;
      RestIsShorter(tail, GRAPHQL);
    } else {
      BackslashFirst(s, tail);
    }
  }

  /** A backslash in front of a quote is read as an escaped backslash, and the quote ends the literal. */
  lemma BackslashAndQuote(s: string, tail: string)
    requires |s| >= 2 && s[0] == '\\' && s[1] == '"'
    ensures StringLiteral(Embedded(s) + "\"" + tail, GRAPHQL)
            == Some(Token("\\", Embedded(s[2..]) + "\"" + tail))
    ensures |Embedded(s[2..]) + "\"" + tail| > |tail|
  {
    var all, after := Embedded(s) + "\"" + tail, Embedded(s[2..]) + "\"" + tail;
    assert s[1..][1..] == s[2..];
    assert Embedded(s[1..]) == ESCAPED_QUOTE + Embedded(s[2..]);
    assert all == "\\\\" + ("\"" + after);
    assert all[2..] == "\"" + after;
    assert StringLiteral(all[2..], GRAPHQL) == Some(Token("", after)) by {
      assert ("\"" + after)[1..] == after;
    }
    assert ['\\'] + "" == "\\";
  }

  lemma {:induction false} BackslashFirst(s: string, tail: string)
    requires |s| >= 2 && s[0] == '\\'
    ensures var t := StringLiteral(Embedded(s) + "\"" + tail, GRAPHQL);
            t.Some? && |t.value.rest| == |tail| ==> |t.value.value| < |s|
    decreases |s|, 0
  {
    var all := Embedded(s) + "\"" + tail;
    assert Embedded(s) == ['\\'] + Embedded(s[1..]);
    var c := s[1];
    assert s[1..][1..] == s[2..];
    var after := Embedded(s[2..]) + "\"" + tail;
    if c == '"' {
      BackslashAndQuote(s, tail);
    } else {
      assert Embedded(s[1..]) == [c] + Embedded(s[2..]);
      assert all == ['\\', c] + after;
      assert all[2..] == after;
      if SimpleEscape(c).Some? {
        LostCharactersShow(s[2..], tail);
      } else if c == 'u' && |after| >= 4 && FromHex(after).Some? {
        FourHexAtFront(s[2..], tail);
        assert s[2..][4..] == s[6..];
        assert all[6..] == after[4..];
        LostCharactersShow(s[6..], tail);
      }
    }
  }

  // ----- the whole payload --------------------------------------------------------------------

  ghost predicate PlainFields(r: Request) {
    Plain(r.clusterID) && Plain(r.accessKey) && Plain(r.version) && Plain(r.completed) && Plain(r.workflowID)
    && Plain(r.uid) && Plain(r.name) && Plain(r.executedBy)
  }

  lemma {:induction false} PiecesDecode(pieces: seq<Piece>, raw: char -> bool)
    requires Lenient(raw) && AllPlain(pieces)
    ensures Decodes(Written(pieces, ESCAPED_QUOTE), Written(pieces, "\""), Reading(raw))
  {
    var e, q := ESCAPED_QUOTE, "\"";
    var read := Reading(raw);
    if pieces == [] {
      NothingDecodes(read);
    } else {
      var text, more := pieces[0].text, pieces[1..];
      PiecesDecode(more, raw);
      PlainDecodes(text, raw);
      QuoteAndBackslashDecode(raw);
      if pieces[0].Bare? {
        DecodesConcat(text, text, Written(more, e), Written(more, q), read);
      } else {
        DecodesConcat(e, q, text, text, read);
        DecodesConcat(e + text, q + text, e, q, read);
        DecodesConcat(e + text + e, q + text + q, Written(more, e), Written(more, q), read);
      }
    }
  }

  /** The text up to and including the quote that opens the data. */
  function Before(r: Request, q: string): string {
    Written(Head(r), q) + q
  }

  /** The GraphQL text the server finds in the JSON string. */
  function QueryText(r: Request, data: string): string {
    Before(r, "\"") + Embedded(data) + "\"" + TAIL
  }

  lemma FirstLiteralsArePlain()
    ensures Plain("mutation { ") && Plain("chaosWorkflowRun(request:") && Plain("{ workflowID: ")
  {
  }

  lemma MoreLiteralsArePlain()
    ensures Plain(", workflowRunID: ") && Plain(", completed: ") && Plain(", workflowName:")
  {
  }

  lemma ClusterLiteralsArePlain()
    ensures Plain(", clusterID: {clusterID: ") && Plain(", version: ") && Plain(", accessKey: ")
  {
  }

  lemma LastLiteralsArePlain()
    ensures Plain("}, executedBy:") && Plain(", executionData:") && Plain(TAIL)
  {
  }

  ghost predicate AllPlain(pieces: seq<Piece>) {
    forall p :: p in pieces ==> Plain(p.text)
  }

  lemma RunPiecesArePlain(r: Request)
    requires PlainFields(r)
    ensures AllPlain(RunPieces(r))
  {
    FirstLiteralsArePlain();
    MoreLiteralsArePlain();
    var ps := RunPieces(r);
    assert Plain(ps[0].text) && Plain(ps[1].text) && Plain(ps[2].text) && Plain(ps[4].text);
    assert Plain(ps[6].text) && Plain(ps[8].text);
  }

  lemma ClusterPiecesArePlain(r: Request)
    requires PlainFields(r)
    ensures AllPlain(ClusterPieces(r))
  {
    ClusterLiteralsArePlain();
    var ps := ClusterPieces(r);
    assert Plain(ps[0].text) && Plain(ps[2].text) && Plain(ps[4].text);
  }

  lemma UserPiecesArePlain(r: Request)
    requires PlainFields(r)
    ensures AllPlain(UserPieces(r))
  {
    LastLiteralsArePlain();
    var ps := UserPieces(r);
    assert Plain(ps[0].text) && Plain(ps[2].text);
  }

  lemma BarePiecesArePlain(r: Request)
    requires PlainFields(r)
    ensures AllPlain(Head(r))
  {
    RunPiecesArePlain(r);
    ClusterPiecesArePlain(r);
    UserPiecesArePlain(r);
    AllPlainConcat(RunPieces(r), ClusterPieces(r));
    AllPlainConcat(RunPieces(r) + ClusterPieces(r), UserPieces(r));
  }

  lemma AllPlainConcat(a: seq<Piece>, b: seq<Piece>)
    requires AllPlain(a) && AllPlain(b)
    ensures AllPlain(a + b)
  {
  }

  lemma BeforeDecodes(r: Request)
    requires PlainFields(r)
    ensures Decodes(Before(r, ESCAPED_QUOTE), Before(r, "\""), Reading(JSON))
  {
    BarePiecesArePlain(r);
    PiecesDecode(Head(r), JSON);
    QuoteAndBackslashDecode(JSON);
    DecodesConcat(Written(Head(r), ESCAPED_QUOTE), Written(Head(r), "\""), ESCAPED_QUOTE, "\"", Reading(JSON));
  }

  lemma BodyDecodes(r: Request, data: string, prints: char -> bool)
    requires PlainFields(r) && GoPrints(prints) && forall c :: c in data ==> JsonReads(c, prints)
    ensures Decodes(Before(r, ESCAPED_QUOTE) + Escaped(data, prints) + ESCAPED_QUOTE + TAIL, QueryText(r, data),
                    Reading(JSON))
  {
    var e, q, read := ESCAPED_QUOTE, "\"", Reading(JSON);
    BeforeDecodes(r);
    QuoteAndBackslashDecode(JSON);
    EscapedDecodes(data, prints);
    LastLiteralsArePlain();
    PlainDecodes(TAIL, JSON);
    var a, v, w := Before(r, e), Before(r, q), Escaped(data, prints);
    DecodesConcat(a, v, w, Embedded(data), read);
    DecodesConcat(a + w, v + Embedded(data), e, q, read);
    DecodesConcat(a + w + e, v + Embedded(data) + q, TAIL, TAIL, read);
  }

  lemma BodyFails(r: Request, data: string, prints: char -> bool, rest: string)
    requires PlainFields(r) && GoPrints(prints) && exists c :: c in data && !JsonReads(c, prints)
    ensures Reading(JSON)(Before(r, ESCAPED_QUOTE) + (Escaped(data, prints) + rest)) == None
  {
    BeforeDecodes(r);
    EscapedFails(data, prints, rest);
  }

  /** A piece that decodes, followed by a closing quote, is read up to that quote. */
  lemma ReadToTheQuote(a: string, v: string, tail: string, raw: char -> bool)
    requires Decodes(a, v, Reading(raw))
    ensures Reading(raw)(a + "\"" + tail) == Some(Token(v, tail))
  {
    assert a + "\"" + tail == a + ("\"" + tail);
    assert ("\"" + tail)[1..] == tail;
    assert Reading(raw)("\"" + tail) == Some(Token("", tail));
    assert v + "" == v;
  }

  lemma PayloadInParts(r: Request, data: string, prints: char -> bool)
    requires data == "" || Last(data) != '\\'
    ensures GenerateWorkflowPayload(r, data, prints)
            == OPENING + (Before(r, ESCAPED_QUOTE) + Escaped(data, prints) + ESCAPED_QUOTE + TAIL + "\"" + "}")
  {
    MarshalledIsEscaped(data, prints);
    Unquoted(Escaped(data, prints), MarshalGQLData(data, prints));
    Regroup(OPENING, Written(Head(r), ESCAPED_QUOTE), ESCAPED_QUOTE, Escaped(data, prints), TAIL);
  }

  lemma Unquoted(inner: string, s: string)
    requires s == "\"" + inner + "\""
    ensures s[1..|s| - 1] == inner
  {
  }

  lemma Regroup(opening: string, written: string, e: string, data: string, tail: string)
    ensures opening + written + e + data + e + tail + "\"}"
            == opening + (written + e + data + e + tail + "\"" + "}")
  {
    assert "\"}" == "\"" + "}";
    var x := written + e + data + e + tail;
    assert opening + written + e + data + e + tail == opening + x;
    assert x + ("\"" + "}") == x + "\"" + "}";
  }

  /**
   The payload is one JSON string that decodes to the query text and ends where the payload ends it, if every
   character of the data has a quoted form that is JSON, and no JSON otherwise.
   */
  lemma PayloadIsTheQueryText(r: Request, data: string, prints: char -> bool)
    requires PlainFields(r) && GoPrints(prints) && (data == "" || Last(data) != '\\')
    ensures OPENING <= GenerateWorkflowPayload(r, data, prints)
    ensures Reading(JSON)(GenerateWorkflowPayload(r, data, prints)[|OPENING|..])
            == if forall c :: c in data ==>
                    prints(c) || c in "\U{8}\U{C}\n\r\t" || (' ' <= c && c as int < 0x1_0000)
               then Some(Token(QueryText(r, data), "}")) else None
  {
    PayloadInParts(r, data, prints);
    var body := Before(r, ESCAPED_QUOTE) + Escaped(data, prints) + ESCAPED_QUOTE + TAIL;
    assert (OPENING + (body + "\"" + "}"))[|OPENING|..] == body + "\"" + "}";
    if forall c :: c in data ==> JsonReads(c, prints) {
      BodyDecodes(r, data, prints);
      ReadToTheQuote(body, QueryText(r, data), "}", JSON);
    } else {
      var rest := ESCAPED_QUOTE + TAIL + "\"" + "}";
      BodyFails(r, data, prints, rest);
      RegroupBody(Before(r, ESCAPED_QUOTE), Escaped(data, prints), ESCAPED_QUOTE, TAIL);
    }
  }

  lemma RegroupBody(a: string, w: string, e: string, tail: string)
    ensures a + w + e + tail + "\"" + "}" == a + (w + (e + tail + "\"" + "}"))
  {
    ConcatAssociates(a + w + e, tail, "\"");
  }

  /** What the server reads as the data: the literal where the data should be, in the text the JSON string holds. */
  function Received(r: Request, payload: string): Option<Token> {
    if !(OPENING <= payload) then None
    else
      var query := Reading(JSON)(payload[|OPENING|..]);
      if query.None? || !(Before(r, "\"") <= query.value.value) then None
      else Reading(GRAPHQL)(query.value.value[|Before(r, "\"")|..])
  }

  /** Characters that survive: no backslash, and what does not print only as a tab or between ' ' and U+FFFF. */
  predicate Carried(c: char, prints: char -> bool) {
    c != '\\' && (prints(c) || c == '\t' || (' ' <= c && c as int < 0x1_0000))
  }

  /** What is read out of the query text. */
  lemma LiteralIsRead(r: Request, data: string)
    ensures Before(r, "\"") <= QueryText(r, data)
    ensures Reading(GRAPHQL)(QueryText(r, data)[|Before(r, "\"")|..]) == Some(Token(data, TAIL))
            <==> forall c :: c in data ==> !Lost(c)
  {
    var literal := Embedded(data) + "\"" + TAIL;
    var before := Before(r, "\"");
    assert QueryText(r, data) == before + literal;
    assert (before + literal)[|before|..] == literal;
    LostCharactersShow(data, TAIL);
    if forall c :: c in data ==> !Lost(c) {
      EmbeddedDecodes(data);
      ReadToTheQuote(Embedded(data), data, TAIL, GRAPHQL);
    }
  }

  /**
   The server reads exactly the data, ending right before the query's own closing brackets, if and only if
   every character of the data survives both escapes.
   */
  lemma DataArrivesExactly(r: Request, data: string, prints: char -> bool)
    requires PlainFields(r) && GoPrints(prints) && (data == "" || Last(data) != '\\')
    ensures Received(r, GenerateWorkflowPayload(r, data, prints)) == Some(Token(data, TAIL))
            <==> forall c :: c in data ==>
                   c != '\\' && (prints(c) || c == '\t' || (' ' <= c && c as int < 0x1_0000))
  {
    PayloadIsTheQueryText(r, data, prints);
    LiteralIsRead(r, data);
    CarriedExactly(data, prints);
  }

  lemma CarriedExactly(data: string, prints: char -> bool)
    requires GoPrints(prints)
    ensures (forall c :: c in data ==> Carried(c, prints))
            <==> (forall c :: c in data ==> JsonReads(c, prints)) && forall c :: c in data ==> !Lost(c)
  {
    forall c
      ensures Carried(c, prints) <==> JsonReads(c, prints) && !Lost(c)
    {
    }
  }

  // ----- the query text -----------------------------------------------------------------------

  lemma {:induction false} WrittenConcat(a: seq<Piece>, b: seq<Piece>, q: string)
    ensures Written(a + b, q) == Written(a, q) + Written(b, q)
  {
    if a == [] {
      assert a + b == b;
    } else {
      assert (a + b)[1..] == a[1..] + b;
      WrittenConcat(a[1..], b, q);
    }
  }

  /** A bare text and a quoted one. */
  lemma WrittenField(bare: string, text: string, q: string)
    ensures Written([Bare(bare), Quoted(text)], q) == bare + (q + text + q)
  {
    var pieces := [Bare(bare), Quoted(text)];
    assert pieces[1..] == [Quoted(text)] && pieces[1..][1..] == [];
    assert Written([Quoted(text)], q) == (q + text + q) + Written([], q);
  }

  lemma WrittenBare(text: string, q: string)
    ensures Written([Bare(text)], q) == text
  {
    assert [Bare(text)][1..] == [];
  }

  /** What the request says about the run. */
  function RunText(r: Request): string {
    "mutation { " + ("chaosWorkflowRun(request:" + ("{ workflowID: " + ("\"" + r.workflowID + "\"")))
    + (", workflowRunID: " + ("\"" + r.uid + "\"")) + (", completed: " + r.completed)
    + (", workflowName:" + ("\"" + r.name + "\""))
  }

  lemma RunTextIsWritten(r: Request)
    ensures Written(RunPieces(r), "\"") == RunText(r)
  {
    var q := "\"";
    var opening := [Bare("mutation { "), Bare("chaosWorkflowRun(request:")];
    var workflow, run := [Bare("{ workflowID: "), Quoted(r.workflowID)], [Bare(", workflowRunID: "), Quoted(r.uid)];
    var completed, name := [Bare(", completed: "), Bare(r.completed)], [Bare(", workflowName:"), Quoted(r.name)];
    assert RunPieces(r) == opening + workflow + run + completed + name;
    WrittenConcat(opening + workflow + run + completed, name, q);
    WrittenConcat(opening + workflow + run, completed, q);
    WrittenConcat(opening + workflow, run, q);
    WrittenConcat(opening, workflow, q);
    WrittenField("{ workflowID: ", r.workflowID, q);
    WrittenField(", workflowRunID: ", r.uid, q);
    WrittenField(", workflowName:", r.name, q);
    TwoBare("mutation { ", "chaosWorkflowRun(request:", q);
    TwoBare(", completed: ", r.completed, q);
  }

  lemma TwoBare(a: string, b: string, q: string)
    ensures Written([Bare(a), Bare(b)], q) == a + b
  {
    WrittenBare(b, q);
    assert [Bare(a), Bare(b)][1..] == [Bare(b)];
  }

  /** What it says about the cluster. */
  function ClusterText(r: Request): string {
    ", clusterID: {clusterID: " + ("\"" + r.clusterID + "\"") + (", version: " + ("\"" + r.version + "\""))
    + (", accessKey: " + ("\"" + r.accessKey + "\""))
  }

  lemma ClusterTextIsWritten(r: Request)
    ensures Written(ClusterPieces(r), "\"") == ClusterText(r)
  {
    var q := "\"";
    var cluster := [Bare(", clusterID: {clusterID: "), Quoted(r.clusterID)];
    var version, key := [Bare(", version: "), Quoted(r.version)], [Bare(", accessKey: "), Quoted(r.accessKey)];
    assert ClusterPieces(r) == cluster + version + key;
    WrittenConcat(cluster + version, key, q);
    WrittenConcat(cluster, version, q);
    WrittenField(", clusterID: {clusterID: ", r.clusterID, q);
    WrittenField(", version: ", r.version, q);
    WrittenField(", accessKey: ", r.accessKey, q);
  }

  /** And about the user. */
  function UserText(r: Request): string {
    "}, executedBy:" + ("\"" + r.executedBy + "\"") + ", executionData:"
  }

  lemma UserTextIsWritten(r: Request)
    ensures Written(UserPieces(r), "\"") == UserText(r)
  {
    var q := "\"";
    assert UserPieces(r) == [Bare("}, executedBy:"), Quoted(r.executedBy)] + [Bare(", executionData:")];
    WrittenConcat([Bare("}, executedBy:"), Quoted(r.executedBy)], [Bare(", executionData:")], q);
    WrittenField("}, executedBy:", r.executedBy, q);
    WrittenBare(", executionData:", q);
  }

  /** The query names each field of the request once, in its place, with the data last. */
  lemma QueryTextExactly(r: Request, data: string)
    ensures QueryText(r, data)
            == RunText(r) + ClusterText(r) + UserText(r) + "\"" + Embedded(data) + "\"" + "} )}"
    ensures OPENING == "{\"query\":\""
  {
    RunTextIsWritten(r);
    ClusterTextIsWritten(r);
    UserTextIsWritten(r);
    WrittenConcat(RunPieces(r) + ClusterPieces(r), UserPieces(r), "\"");
    WrittenConcat(RunPieces(r), ClusterPieces(r), "\"");
  }

  // ----- data that does not arrive ------------------------------------------------------------

  /** A value with a quote, as the JSON encoder writes it. */
  const QUOTED_VALUE := "{\"step\":\"a \\\"b\\\"\"}"

  /** A character beyond U+FFFF that Go does not print, and no backslash. */
  const UNPRINTED_VALUE := "{\"step\":\"\U{1FAE0}\"}"

  lemma ValuesHaveLostCharacters()
    ensures QUOTED_VALUE[11] == '\\' && Last(QUOTED_VALUE) == '}'
    ensures UNPRINTED_VALUE[9] == '\U{1FAE0}' && Last(UNPRINTED_VALUE) == '}'
  {
  }

  lemma QuotedValueIsLost(r: Request, prints: char -> bool)
    requires PlainFields(r) && GoPrints(prints)
    ensures Received(r, GenerateWorkflowPayload(r, QUOTED_VALUE, prints)) != Some(Token(QUOTED_VALUE, TAIL))
  {
    ValuesHaveLostCharacters();
    CarriedNeedsAll(r, QUOTED_VALUE, 11, prints);
  }

  lemma UnprintedCharacterIsLost(r: Request, prints: char -> bool)
    requires PlainFields(r) && GoPrints(prints) && !prints('\U{1FAE0}')
    ensures Received(r, GenerateWorkflowPayload(r, UNPRINTED_VALUE, prints)) != Some(Token(UNPRINTED_VALUE, TAIL))
  {
    ValuesHaveLostCharacters();
    CarriedNeedsAll(r, UNPRINTED_VALUE, 9, prints);
  }

  lemma CarriedNeedsAll(r: Request, data: string, i: nat, prints: char -> bool)
    requires PlainFields(r) && GoPrints(prints) && (data == "" || Last(data) != '\\')
    requires i < |data| && !Carried(data[i], prints)
    ensures Received(r, GenerateWorkflowPayload(r, data, prints)) != Some(Token(data, TAIL))
  {
    DataArrivesExactly(r, data, prints);
    assert data[i] in data;
  }
}
