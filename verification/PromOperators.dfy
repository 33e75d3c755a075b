/**
 Reading matchers with any operator, and with space in front as people write it. The reader looks for operators in
 a fixed order, anywhere in the matcher, so that one inside a value can be taken for the matcher's own.
 */
module PromOperators {
  import opened Prelude
  import opened JsText
  import opened PromLabels

  predicate Operator(op: string) {
    op == "=" || op == "!=" || op == "=~" || op == "!~" || op == "==" || op == "<" || op == "<=" || op == ">"
    || op == ">="
  }

  predicate Blank(w: string) {
    forall c :: c in w ==> c == ' ' || c == '\t'
  }

  /** A label's name as it may stand in a matcher. */
  predicate CleanName(name: string) {
    (forall c :: c in name ==> NameChar(c)) && (name != "" ==> !IsSpace(name[0]))
  }

  /** What follows the operator: a quoted text without the characters that make up most operators. */
  predicate QuotedText(q: string) {
    q != "" && q[0] == '"' && q[|q| - 1] == '"' && forall c :: c in q ==> c !in "=<>"
  }

  function MatcherText(w: string, name: string, op: string, q: string): string {
    w + name + op + q
  }

  // ----- which operator is found --------------------------------------------------------------

  /** The characters before the operator, of it, and behind it. */
  lemma CharsOf(w: string, name: string, op: string, q: string)
    requires Blank(w) && CleanName(name) && Operator(op) && QuotedText(q)
    ensures var s, at := MatcherText(w, name, op, q), |w| + |name|;
            && |s| == at + |op| + |q|
            && (forall i :: 0 <= i < at ==> s[i] !in "=<>!")
            && (forall i :: at <= i < at + |op| ==> s[i] == op[i - at])
            && (forall i :: at + |op| <= i < |s| ==> s[i] == q[i - at - |op|] && s[i] !in "=<>")
  {
    var s, at := MatcherText(w, name, op, q), |w| + |name|;
    forall i | 0 <= i < at
      ensures s[i] !in "=<>!"
    {
      if i < |w| {
        assert s[i] == w[i] && w[i] in w;
      } else {
        assert s[i] == name[i - |w|] && NameChar(name[i - |w|]);
      }
    }
  }

  /** Operators made of one character: only in the matcher's own operator. */
  lemma SingleOccurs(s: string, at: nat, op: string, c: char)
    requires at + |op| <= |s| && c in "=<>"
    requires forall i :: at <= i < at + |op| ==> s[i] == op[i - at]
    requires forall i :: (0 <= i < at || at + |op| <= i < |s|) ==> s[i] !in "=<>"
    ensures IndexFrom(s, [c], 0) != -1 <==> c in op
  {
    IndexIsFirst(s, [c], 0);
    if c in op {
      var k :| 0 <= k < |op| && op[k] == c;
      assert s[at + k] == c && OccursAt(s, [c], at + k);
    }
    var r := IndexFrom(s, [c], 0);
    if r != -1 {
      assert s[r] == c;
    }
  }

  lemma PairAt(s: string, o: string, i: nat)
    requires i < |s| && |o| == 2
    ensures OccursAt(s, o, i) <==> i + 1 < |s| && s[i] == o[0] && s[i + 1] == o[1]
  {
    if i + 2 <= |s| {
      assert s[i..i + 2] == [s[i], s[i + 1]] && o == [o[0], o[1]];
    }
  }

  lemma PairIndex(s: string, o: string)
    requires |o| == 2
    ensures var r := IndexFrom(s, o, 0);
            if r == -1 then forall i :: 0 <= i < |s| - 1 ==> !(s[i] == o[0] && s[i + 1] == o[1])
            else r + 1 < |s| && s[r] == o[0] && s[r + 1] == o[1]
  {
    IndexIsFirst(s, o, 0);
    var r := IndexFrom(s, o, 0);
    if r == -1 {
      forall i | 0 <= i < |s| - 1
        ensures !(s[i] == o[0] && s[i + 1] == o[1])
      {
        PairAt(s, o, i);
      }
    } else {
      PairAt(s, o, r);
    }
  }

  /** Operators of two characters, one of them '=', '<' or '>': only as the matcher's own. */
  lemma PairOccurs(s: string, at: nat, op: string, o: string)
    requires at + |op| < |s| && Operator(op) && s[at + |op|] == '"'
    requires o == "==" || o == "!=" || o == "<=" || o == ">=" || o == "=~"
    requires forall i :: at <= i < at + |op| ==> s[i] == op[i - at]
    requires forall i :: 0 <= i < at ==> s[i] !in "=<>!"
    requires forall i :: at + |op| <= i < |s| ==> s[i] !in "=<>"
    ensures IndexFrom(s, o, 0) != -1 <==> o == op
  {
    PairIndex(s, o);
    if o == op {
      assert s[at] == o[0] && s[at + 1] == o[1];
    } else {
      PairsDiffer(op, o);
    }
  }

  lemma PairsDiffer(op: string, o: string)
    requires Operator(op) && o != op
    requires o == "==" || o == "!=" || o == "<=" || o == ">=" || o == "=~"
    ensures |op| <= 2 && (|op| == 2 ==> op[0] != o[0] || op[1] != o[1])
  {
  }

  lemma SkipTo(s: string, o: string, from: nat, to: nat)
    requires from <= to <= |s| && forall i :: from <= i < to ==> !OccursAt(s, o, i)
    ensures IndexFrom(s, o, from) == IndexFrom(s, o, to)
    decreases |s| - from
  {
    if from < to {
      SkipTo(s, o, from + 1, to);
    }
  }

  /** The one operator without any of these characters can be in the value as well. */
  lemma NotMatchesOccurs(head: string, op: string, q: string)
    requires Operator(op) && q != "" && q[0] == '"' && forall c :: c in head ==> c !in "=<>!"
    ensures IndexFrom(head + op + q, "!~", 0)
            == if op == "!~" then |head|
               else if IndexFrom(q, "!~", 0) == -1 then -1 else |head + op| + IndexFrom(q, "!~", 0)
  {
    var s, at := head + op + q, if op == "!~" then |head| else |head + op|;
    forall i | 0 <= i < at
      ensures !OccursAt(s, "!~", i)
    {
      PairAt(s, "!~", i);
      if i < |head| {
        assert s[i] == head[i] && head[i] in head;
      } else if i + 1 < |head + op| {
        assert s[i] == op[i - |head|] && s[i + 1] == op[i + 1 - |head|];
      } else {
        assert s[i + 1] == q[0];
      }
    }
    SkipTo(s, "!~", 0, at);
    if op == "!~" {
      PairAt(s, "!~", at);
      assert s[at] == op[0] && s[at + 1] == op[1];
    } else {
      IndexShifts(head + op, q, "!~", 0);
    }
  }

  /** The operator that is looked for in place k is the first that is found. */
  lemma FirstFound(s: string, k: nat)
    requires k < |OPERATORS| && IndexFrom(s, OPERATORS[k], 0) != -1
    requires forall i :: 0 <= i < k ==> IndexFrom(s, OPERATORS[i], 0) == -1
    ensures FirstIn(OPERATORS, s) == OPERATORS[k]
  {
    assert OPERATORS == OPERATORS[..k] + OPERATORS[k..];
    SkipsAbsent(OPERATORS[..k], OPERATORS[k..], s);
  }

  /** What is found of each operator the reader looks for. */
  ghost predicate Found(s: string, op: string, inside: bool) {
    && (forall o :: o in ["==", "!=", "<=", ">=", "=~"] ==> (IndexFrom(s, o, 0) != -1 <==> o == op))
    && (IndexFrom(s, "<", 0) != -1 <==> op == "<" || op == "<=")
    && (IndexFrom(s, ">", 0) != -1 <==> op == ">" || op == ">=")
    && (IndexFrom(s, "!~", 0) != -1 <==> op == "!~" || inside)
    && (op == "=" ==> IndexFrom(s, "=", 0) != -1)
  }

  lemma SinglesFound(w: string, name: string, op: string, q: string)
    requires Blank(w) && CleanName(name) && Operator(op) && QuotedText(q)
    ensures var s := MatcherText(w, name, op, q);
            && (IndexFrom(s, "<", 0) != -1 <==> op == "<" || op == "<=")
            && (IndexFrom(s, ">", 0) != -1 <==> op == ">" || op == ">=")
            && (op == "=" ==> IndexFrom(s, "=", 0) != -1)
  {
    var s, at := MatcherText(w, name, op, q), |w| + |name|;
    CharsOf(w, name, op, q);
    SingleOccurs(s, at, op, '<');
    SingleOccurs(s, at, op, '>');
    SingleOccurs(s, at, op, '=');
  }

  lemma PairFound(w: string, name: string, op: string, q: string, o: string)
    requires Blank(w) && CleanName(name) && Operator(op) && QuotedText(q)
    requires o == "==" || o == "!=" || o == "<=" || o == ">=" || o == "=~"
    ensures IndexFrom(MatcherText(w, name, op, q), o, 0) != -1 <==> o == op
  {
    CharsOf(w, name, op, q);
    PairOccurs(MatcherText(w, name, op, q), |w| + |name|, op, o);
  }

  lemma HeadHasNone(w: string, name: string)
    requires Blank(w) && CleanName(name)
    ensures forall c :: c in w + name ==> c !in "=<>!"
  {
  }

  lemma OperatorsFound(w: string, name: string, op: string, q: string)
    requires Blank(w) && CleanName(name) && Operator(op) && QuotedText(q)
    ensures Found(MatcherText(w, name, op, q), op, IndexFrom(q, "!~", 0) != -1)
  {
    SinglesFound(w, name, op, q);
    forall o | o in ["==", "!=", "<=", ">=", "=~"]
      ensures IndexFrom(MatcherText(w, name, op, q), o, 0) != -1 <==> o == op
    {
      PairFound(w, name, op, q, o);
    }
    HeadHasNone(w, name);
    NotMatchesOccurs(w + name, op, q);
  }

  /** The reader takes the matcher's own operator, save that "!~" in a value is taken for a plain "=". */
  lemma OperatorTaken(s: string, op: string, inside: bool)
    requires Operator(op) && Found(s, op, inside)
    ensures FirstIn(OPERATORS, s) == if op == "=" && inside then "!~" else op
  {
    assert OPERATORS == ["==", "!=", "<=", "<", ">=", ">", "=~", "!~", "="];
    FirstFound(s, if op == "==" then 0 else if op == "!=" then 1 else if op == "<=" then 2 else if op == "<" then 3
                  else if op == ">=" then 4 else if op == ">" then 5 else if op == "=~" then 6
                  else if op == "!~" || inside then 7 else 8);
  }

  // ----- what is read -------------------------------------------------------------------------

  lemma {:induction false} SkipsBlank(w: string, x: string)
    requires Blank(w)
    ensures TrimStart(w + x) == TrimStart(x)
  {
    if w == "" {
      assert w + x == x;
    } else {
      assert (w + x)[0] == w[0] && w[0] in w && (w + x)[1..] == w[1..] + x;
      assert forall c :: c in w[1..] ==> c in w;
      SkipsBlank(w[1..], x);
    }
  }

  lemma TrimsMatcher(w: string, name: string, op: string, q: string)
    requires Blank(w) && CleanName(name) && Operator(op) && QuotedText(q)
    ensures Trim(MatcherText(w, name, op, q)) == name + op + q
  {
    var x := name + op + q;
    assert MatcherText(w, name, op, q) == w + x;
    SkipsBlank(w, x);
    NoOperatorBlank(op);
    assert x[0] == if name == "" then op[0] else name[0];
    assert x[|x| - 1] == q[|q| - 1];
    NothingTrimmed(x);
  }

  lemma NoOperatorBlank(op: string)
    requires Operator(op)
    ensures !IsSpace(op[0])
  {
    assert op[0] in "=<>!";
  }

  lemma NothingTrimmed(x: string)
    requires x != "" && !IsSpace(x[0]) && !IsSpace(x[|x| - 1])
    ensures TrimStart(x) == x && TrimEnd(x) == x
  {
  }

  lemma NoPairWithout(q: string, sep: string)
    requires |sep| == 2 && (sep[0] !in q || sep[1] !in q)
    ensures IndexFrom(q, sep, 0) == -1
  {
    PairIndex(q, sep);
  }

  /** No operator but "!~" occurs in a value. */
  lemma NotInValue(op: string, q: string)
    requires Operator(op) && QuotedText(q) && (op == "!~" ==> IndexFrom(q, "!~", 0) == -1)
    ensures IndexFrom(q, op, 0) == -1
  {
    if |op| == 2 {
      if op != "!~" {
        NoPairWithout(q, op);
      }
    } else {
      assert op == [op[0]] && op[0] in "=<>";
      NoCharIndex(q, op[0], 0);
    }
  }

  lemma SplitsAtOwn(name: string, op: string, q: string)
    requires CleanName(name) && Operator(op) && QuotedText(q) && (op == "!~" ==> IndexFrom(q, "!~", 0) == -1)
    ensures Split(name + op + q, op) == [name, q]
  {
    NotInValue(op, q);
    assert op[0] in "=<>!";
    assert forall c :: c in name ==> NameChar(c) && c != op[0];
    SplitFirst(name, op, q);
    assert Split(q, op) == [q];
  }

  lemma {:induction false} BetweenAtEnd(u: string)
    requires '"' !in u
    ensures Between(u + "\"", '"', '"') == ""
  {
    var s := u + "\"";
    if u == "" {
      assert s[1..] == "";
    } else {
      assert s[1..] == u[1..] + "\"";
      BetweenAtEnd(u[1..]);
    }
  }

  /** A text with a quote at its front or end only has nothing between quotes. */
  lemma OneQuoteIsNotRead(parts: seq<string>, t: string)
    requires |parts| >= 2 && (parts[1] == "\"" + t || parts[1] == t + "\"" || parts[1] == t) && '"' !in t
    ensures ReadParts(parts) == None
  {
    if parts[1] == "\"" + t {
      assert ("\"" + t)[1..] == t;
      BetweenNone(t, '"', '"');
    } else if parts[1] == t {
      BetweenNone(t, '"', '"');
    } else {
      BetweenAtEnd(t);
    }
  }

  /** The first part of a text. */
  lemma FirstPart(s: string, sep: string)
    requires sep != ""
    ensures Split(s, sep) != []
    ensures Split(s, sep)[0] == if IndexFrom(s, sep, 0) == -1 then s else s[..IndexFrom(s, sep, 0)]
  {
  }

  function InQuotes(s: string): string {
    "\"" + s + "\""
  }

  /** What follows the first part is a part of a text whose only quote is its last character. */
  lemma TornApart(parts: seq<string>, sep: string, rest: string, t: string)
    requires |parts| >= 2 && |sep| == 2 && parts[1] == Split(rest, sep)[0] && rest == t + "\"" && '"' !in t
    ensures ReadParts(parts) == None
  {
    FirstPart(rest, sep);
    var at := IndexFrom(rest, sep, 0);
    if at == -1 {
      OneQuoteIsNotRead(parts, t);
    } else {
      PairIndex(rest, sep);
      assert rest[..at] == t[..at];
      OneQuoteIsNotRead(parts, t[..at]);
    }
  }

  lemma FirstInValue(joined: string, k: nat)
    requires IndexFrom(InQuotes(joined), "!~", 0) == k
    ensures 0 < k && k + 1 <= |joined|
    ensures InQuotes(joined)[k..k + 2] == "!~"
    ensures InQuotes(joined)[..k] == "\"" + joined[..k - 1]
    ensures InQuotes(joined)[k + 2..] == joined[k + 1..] + "\""
  {
    var q := InQuotes(joined);
    PairIndex(q, "!~");
    assert q[|q| - 1] == '"' && q[0] == '"' && q[k] == '!' && q[k + 1] == '~';
    assert q[k..k + 2] == [q[k], q[k + 1]];
    CutsInQuotes(joined, k);
  }

  lemma CutsInQuotes(joined: string, k: nat)
    requires 0 < k && k + 1 <= |joined|
    ensures InQuotes(joined)[..k] == "\"" + joined[..k - 1]
    ensures InQuotes(joined)[k + 2..] == joined[k + 1..] + "\""
  {
  }

  /** If "!~" in a value is taken for the operator "=", the value is torn apart. */
  lemma TornAfterEquals(head: string, joined: string, q: string, k: nat)
    requires q == InQuotes(joined) && '"' !in joined
    requires IndexFrom(q, "!~", 0) == k && IndexFrom(head + q, "!~", 0) == |head| + k
    ensures ReadParts(Split(head + q, "!~")) == None
  {
    FirstInValue(joined, k);
    var first, rest := head + q[..k], q[k + 2..];
    assert head + q == first + "!~" + rest by {
      assert q == q[..k] + q[k..k + 2] + q[k + 2..];
    }
    SplitsByIndex(first, "!~", rest);
    FirstPart(rest, "!~");
    SecondPart((t: string) => Split(t, "!~"), head + q, rest, first);
    TornApart(Split(head + q, "!~"), "!~", rest, joined[k + 1..]);
  }

  lemma SplitsByIndex(head: string, sep: string, rest: string)
    requires sep != "" && IndexFrom(head + sep + rest, sep, 0) == |head|
    ensures Split(head + sep + rest, sep) == [head] + Split(rest, sep)
  {
    var s := head + sep + rest;
    assert s[..|head|] == head && s[|head| + |sep|..] == rest;
  }

  lemma SecondPart(split: string -> seq<string>, s: string, rest: string, first: string)
    requires split(s) == [first] + split(rest) && split(rest) != []
    ensures |split(s)| >= 2 && split(s)[1] == split(rest)[0]
  {
  }

  /** If the operator "!~" occurs in the value as well, the value is torn apart too. */
  lemma TornAfterNotMatches(name: string, joined: string, q: string, k: nat)
    requires CleanName(name) && q == InQuotes(joined) && '"' !in joined
    requires IndexFrom(q, "!~", 0) == k
    ensures ReadParts(Split(name + "!~" + q, "!~")) == None
  {
    FirstInValue(joined, k);
    assert forall c :: c in name ==> NameChar(c) && c != '!';
    SplitFirst(name, "!~", q);
    FirstPart(q, "!~");
    OneQuoteIsNotRead([name] + Split(q, "!~"), joined[..k - 1]);
  }

  lemma FoundInValue(name: string, q: string)
    requires CleanName(name) && QuotedText(q) && IndexFrom(q, "!~", 0) != -1
    ensures IndexFrom(name + "=" + q, "!~", 0) == |name + "="| + IndexFrom(q, "!~", 0)
  {
    assert forall c :: c in name ==> NameChar(c);
    NotMatchesOccurs(name, "=", q);
  }

  /**
   With blanks in front and any operator, a clean matcher is read as its label and values, except that one with
   the operator "=" or "!~" whose value contains "!~" is not read at all.
   */
  lemma AnyMatcherIsRead(w: string, lv: LabelValue, op: string)
    requires Blank(w) && Clean(lv) && Operator(op)
    ensures ReadMatcher(w + lv.name + op + Quoted(lv.values))
            == if (op == "=" || op == "!~") && IndexFrom(Quoted(lv.values), "!~", 0) != -1 then None
               else Some(Normal(lv))
  {
    var q, inside := Quoted(lv.values), IndexFrom(Quoted(lv.values), "!~", 0) != -1;
    JoinedIsClean(lv);
    assert QuotedText(q);
    OperatorsFound(w, lv.name, op, q);
    OperatorTaken(MatcherText(w, lv.name, op, q), op, inside);
    TrimsMatcher(w, lv.name, op, q);
    if op == "=" && inside {
      FoundInValue(lv.name, q);
      TornAfterEquals(lv.name + "=", Join(lv.values, "|"), q, IndexFrom(q, "!~", 0));
    } else if op == "!~" && inside {
      TornAfterNotMatches(lv.name, Join(lv.values, "|"), q, IndexFrom(q, "!~", 0));
    } else {
      SplitsAtOwn(lv.name, op, q);
      assert forall v :: v in lv.values ==> forall c :: c in v ==> ValueChar(c);
      QuotedIsRead(lv.name, lv.values);
    }
  }

  const TORN := LabelValue("a", ["x!~y"])

  lemma CharsOfValue(v: string)
    requires v == "x!~y"
    ensures forall c :: c in v ==> ValueChar(c)
  {
    forall i | 0 <= i < |v|
      ensures ValueChar(v[i])
    {
      assert v[i] == 'x' || v[i] == '!' || v[i] == '~' || v[i] == 'y';
    }
  }

  lemma TornIsClean(lv: LabelValue, v: string)
    requires lv == LabelValue("a", [v]) && forall c :: c in v ==> ValueChar(c)
    ensures Clean(lv) && Quoted(lv.values) == InQuotes(v)
  {
    assert lv.name[0] == 'a';
  }

  lemma HasOperator(q: string)
    requires |q| > 3 && q[2] == '!' && q[3] == '~'
    ensures IndexFrom(q, "!~", 0) != -1
  {
    PairIndex(q, "!~");
  }

  /** A label with the value `x!~y` is not read. */
  lemma ValueWithOperatorIsLost()
    ensures ReadMatcher("" + "a" + "=" + Quoted(["x!~y"])) == None
  {
    CharsOfValue("x!~y");
    TornIsClean(TORN, "x!~y");
    HasOperator(InQuotes("x!~y"));
    AnyMatcherIsRead("", TORN, "=");
  }
}
