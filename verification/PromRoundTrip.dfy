/**
 Writing labels into a PromQL query and reading them back: complete, in reverse order, if the query has the
 selector `{}`; one label short if it has no selector and there are several labels.
 */
module PromRoundTrip {
  import opened Prelude
  import opened JsText
  import opened PromLabels

  // ----- pieces between commas ----------------------------------------------------------------

  function CommaEnded(texts: seq<string>): string {
    if texts == [] then "" else texts[0] + "," + CommaEnded(texts[1..])
  }

  /** The pieces of a selector: the brace stays with the first one. */
  function Pieces(texts: seq<string>, tail: string): (r: seq<string>)
    ensures |r| == |texts| + 1
    ensures forall i :: 0 <= i < |texts| ==> r[i] == (if i == 0 then "{" + texts[i] else texts[i])
    ensures r[|texts|] == (if texts == [] then "{" + tail else tail)
  {
    if texts == [] then ["{" + tail] else ["{" + texts[0]] + (texts[1..] + [tail])
  }

  ghost predicate SplitsCommas(split: string -> seq<string>) {
    && (forall s :: ',' !in s ==> split(s) == [s])
    && forall head, rest :: ',' !in head ==> split(head + "," + rest) == [head] + split(rest)
  }

  lemma {:induction false} SplitsAtCommas(split: string -> seq<string>, texts: seq<string>, tail: string)
    requires SplitsCommas(split)
    requires ',' !in tail && forall k :: 0 <= k < |texts| ==> ',' !in texts[k]
    ensures split(CommaEnded(texts) + tail) == texts + [tail]
  {
    if texts == [] {
      assert "" + tail == tail;
    } else {
      var rest := CommaEnded(texts[1..]) + tail;
      SplitsAtCommas(split, texts[1..], tail);
      assert CommaEnded(texts) + tail == texts[0] + "," + rest;
      assert texts == [texts[0]] + texts[1..];
      assert texts + [tail] == [texts[0]] + (texts[1..] + [tail]);
    }
  }

  lemma AfterComma(brace: string, a: string, b: string, c: string)
    ensures brace + ((a + "," + b) + c) == (brace + a) + "," + (b + c)
  {
  }

  lemma FirstPiece(split: string -> seq<string>, head: string, rest: string)
    requires SplitsCommas(split) && ',' !in head
    ensures split(head + "," + rest) == [head] + split(rest)
  {
  }

  lemma SplitsSelector(split: string -> seq<string>, texts: seq<string>, tail: string)
    requires SplitsCommas(split)
    requires ',' !in tail && forall k :: 0 <= k < |texts| ==> ',' !in texts[k]
    ensures split("{" + (CommaEnded(texts) + tail)) == Pieces(texts, tail)
  {
    if texts == [] {
      SplitsOnlyTail(split, tail);
    } else {
      SplitsAtCommas(split, texts[1..], tail);
      SplitsFirstText(split, texts[0], CommaEnded(texts[1..]), tail);
    }
  }

  lemma SplitsOnlyTail(split: string -> seq<string>, tail: string)
    requires SplitsCommas(split) && ',' !in tail
    ensures split("{" + ("" + tail)) == ["{" + tail]
  {
    assert "{" + ("" + tail) == "{" + tail;
    assert ',' !in "{" + tail;
  }

  lemma SplitsFirstText(split: string -> seq<string>, text: string, more: string, tail: string)
    requires SplitsCommas(split) && ',' !in text
    ensures split("{" + ((text + "," + more) + tail)) == ["{" + text] + split(more + tail)
  {
    AfterComma("{", text, more, tail);
    FirstPiece(split, "{" + text, more + tail);
  }

  lemma SplitSplitsCommas()
    ensures SplitsCommas((s: string) => Split(s, ","))
  {
    forall s: string | ',' !in s
      ensures Split(s, ",") == [s]
    {
      SplitNone(s, ",");
    }
    forall head: string, rest: string | ',' !in head
      ensures Split(head + "," + rest, ",") == [head] + Split(rest, ",")
    {
      SplitFirst(head, ",", rest);
    }
  }

  function Matchers(list: seq<LabelValue>): (r: seq<string>)
    ensures |r| == |list| && forall k :: 0 <= k < |list| ==> r[k] == Matcher(list[k])
  {
    seq(|list|, k requires 0 <= k < |list| => Matcher(list[k]))
  }

  lemma {:induction false} RenderedIsCommaEnded(list: seq<LabelValue>)
    ensures Rendered(list) == CommaEnded(Matchers(list))
  {
    if list != [] {
      RenderedIsCommaEnded(list[1..]);
      assert Matchers(list)[1..] == Matchers(list[1..]);
    }
  }

  predicate SelectorChar(c: char) {
    c != '}' && !EndsLine(c)
  }

  lemma MatcherChars(lv: LabelValue)
    requires Clean(lv)
    ensures ',' !in Matcher(lv) && forall c :: c in Matcher(lv) ==> SelectorChar(c)
  {
    JoinedIsClean(lv);
  }

  lemma {:induction false} CommaEndedChars(texts: seq<string>)
    requires forall k :: 0 <= k < |texts| ==> forall c :: c in texts[k] ==> SelectorChar(c)
    ensures forall c :: c in CommaEnded(texts) ==> SelectorChar(c)
  {
    if texts != [] {
      CommaEndedChars(texts[1..]);
    }
  }

  // ----- reading pieces -----------------------------------------------------------------------

  ghost predicate Distinct(labels: seq<LabelValue>) {
    forall i, j :: 0 <= i < j < |labels| ==> labels[i].name != labels[j].name
  }

  /** Readings that yield a list one by one. */
  lemma {:induction false} CollectsInOrder(readings: seq<Option<LabelValue>>, list: seq<LabelValue>, n: nat)
    requires n <= |list| <= |readings| && Distinct(list)
    requires forall i :: 0 <= i < |list| ==> readings[i] == Some(list[i])
    ensures Collected(readings, n) == list[..n]
  {
    if n > 0 {
      CollectsInOrder(readings, list, n - 1);
      assert list[..n] == list[..n - 1] + [list[n - 1]];
    }
  }

  lemma AdjustedMatcher(m: string, texts: seq<string>, tail: string, i: nat)
    requires i < |texts| && texts[i] == m
    ensures Adjusted(Pieces(texts, tail), i) == m
  {
    assert ("{" + m)[1..|m| + 1] == m;
    assert Pieces(texts, tail)[i] == if i == 0 then "{" + m else m;
  }

  lemma AdjustedLast(texts: seq<string>, tail: string)
    ensures var last := Adjusted(Pieces(texts, tail + "}"), |texts|);
            && (texts == [] || tail == "" ==> last == tail)
            && (texts != [] && tail != "" ==> last == tail[..|tail| - 1])
  {
    var t := tail + "}";
    if texts == [] {
      assert Substring("{" + t, 1, |t| + 1) == t;
      assert Substring(t, 0, |t| - 1) == tail;
    } else if tail != "" {
      assert Substring(t, 0, |t| - 2) == tail[..|tail| - 1];
    }
  }

  /** What is read from a selector with a rest after its last comma. */
  function ReadWithRest(list: seq<LabelValue>, rest: Option<LabelValue>): seq<LabelValue> {
    if rest.None? then list else Added(list, rest.value)
  }

  lemma CollectsWithRest(readings: seq<Option<LabelValue>>, list: seq<LabelValue>)
    requires |readings| == |list| + 1 && Distinct(list)
    requires forall i :: 0 <= i < |list| ==> readings[i] == Some(list[i])
    ensures Collected(readings, |readings|) == ReadWithRest(list, readings[|list|])
  {
    CollectsInOrder(readings, list, |list|);
    assert list[..|list|] == list;
    LastReading(readings, |list|, list);
  }

  lemma LastReading(readings: seq<Option<LabelValue>>, n: nat, list: seq<LabelValue>)
    requires n < |readings| && Collected(readings, n) == list
    ensures Collected(readings, n + 1) == ReadWithRest(list, readings[n])
  {
  }

  lemma ReadsTexts(read: string -> Option<LabelValue>, texts: seq<string>, tail: string, i: nat)
    requires i < |texts|
    ensures Readings(read, Pieces(texts, tail))[i] == read(texts[i])
  {
    AdjustedMatcher(texts[i], texts, tail, i);
  }

  lemma PiecesAreRead(read: string -> Option<LabelValue>, texts: seq<string>, list: seq<LabelValue>, tail: string)
    requires Distinct(list) && |texts| == |list|
    requires forall i :: 0 <= i < |list| ==> read(texts[i]) == Some(list[i])
    ensures var pieces := Pieces(texts, tail);
            LabelsOf(read, pieces) == ReadWithRest(list, read(Adjusted(pieces, |list|)))
  {
    var readings := Readings(read, Pieces(texts, tail));
    forall i | 0 <= i < |list|
      ensures readings[i] == Some(list[i])
    {
      ReadsTexts(read, texts, tail, i);
    }
    CollectsWithRest(readings, list);
  }

  lemma MatchersAreRead(list: seq<LabelValue>)
    requires AllClean(list)
    ensures forall i :: 0 <= i < |list| ==> ReadMatcher(Matchers(list)[i]) == Some(Normals(list)[i])
  {
    forall i | 0 <= i < |list|
      ensures ReadMatcher(Matchers(list)[i]) == Some(Normals(list)[i])
    {
      MatcherIsRead(list[i]);
    }
  }

  lemma MatchersAreClean(list: seq<LabelValue>)
    requires AllClean(list)
    ensures forall k :: 0 <= k < |list| ==> ',' !in Matchers(list)[k]
    ensures forall k :: 0 <= k < |list| ==> forall c :: c in Matchers(list)[k] ==> SelectorChar(c)
  {
    forall k | 0 <= k < |list|
      ensures ',' !in Matchers(list)[k] && forall c :: c in Matchers(list)[k] ==> SelectorChar(c)
    {
      MatcherChars(list[k]);
    }
  }

  lemma AroundBody(p: string, a: string, b: string, s: string)
    ensures p + "{" + (a + (b + "}" + s)) == p + ['{'] + (a + b) + ['}'] + s
    ensures "{" + (a + (b + "}")) == ['{'] + (a + b) + ['}']
  {
  }

  /** The selector as the reader finds it. */
  lemma SelectorIsFound(p: string, texts: seq<string>, tail: string, s: string)
    requires '{' !in p
    requires forall k :: 0 <= k < |texts| ==> forall c :: c in texts[k] ==> SelectorChar(c)
    requires forall c :: c in tail ==> SelectorChar(c)
    ensures Between(p + "{" + (CommaEnded(texts) + (tail + "}" + s)), '{', '}')
            == "{" + (CommaEnded(texts) + (tail + "}"))
  {
    CommaEndedChars(texts);
    BetweenIs(p, '{', CommaEnded(texts) + tail, '}', s);
    AroundBody(p, CommaEnded(texts), tail, s);
  }

  function LastAdjusted(list: seq<LabelValue>, tail: string): string {
    Adjusted(Pieces(Matchers(list), tail + "}"), |list|)
  }

  lemma SelectorIsSplit(texts: seq<string>, tail: string)
    requires ',' !in tail && forall k :: 0 <= k < |texts| ==> ',' !in texts[k]
    ensures Split("{" + (CommaEnded(texts) + tail), ",") == Pieces(texts, tail)
  {
    var split := (t: string) => Split(t, ",");
    SplitSplitsCommas();
    SplitsSelector(split, texts, tail);
    assert split("{" + (CommaEnded(texts) + tail)) == Pieces(texts, tail);
  }

  lemma PiecesOfMatchersAreRead(list: seq<LabelValue>, tail: string)
    requires AllClean(list) && Distinct(list)
    ensures LabelsOf(ReadMatcher, Pieces(Matchers(list), tail))
            == ReadWithRest(Normals(list), ReadMatcher(Adjusted(Pieces(Matchers(list), tail), |list|)))
  {
    MatchersAreRead(list);
    PiecesAreRead(ReadMatcher, Matchers(list), Normals(list), tail);
  }

  lemma LabelsOfSelector(query: string, pieces: seq<string>, selector: string)
    requires Between(query, '{', '}') == selector && selector != "" && Split(selector, ",") == pieces
    ensures Labels(query) == LabelsOf(ReadMatcher, pieces)
  {
  }

  lemma SelectorIsRead(p: string, list: seq<LabelValue>, tail: string, s: string)
    requires '{' !in p && AllClean(list) && Distinct(list)
    requires ',' !in tail && forall c :: c in tail ==> SelectorChar(c)
    ensures Labels(p + "{" + (Rendered(list) + (tail + "}" + s)))
            == ReadWithRest(Normals(list), ReadMatcher(LastAdjusted(list, tail)))
  {
    MatchersAreClean(list);
    RenderedIsCommaEnded(list);
    SelectorIsFound(p, Matchers(list), tail, s);
    SelectorIsSplit(Matchers(list), tail + "}");
    LabelsOfSelector(p + "{" + (Rendered(list) + (tail + "}" + s)), Pieces(Matchers(list), tail + "}"),
                     "{" + (CommaEnded(Matchers(list)) + (tail + "}")));
    PiecesOfMatchersAreRead(list, tail + "}");
  }

  // ----- labels that are new are distinct -----------------------------------------------------

  /** New labels differ from any label that occurs in the text already. */
  lemma {:induction false} NewDiffersFromOld(labels: seq<LabelValue>, after: string, name: string, i: nat)
    requires AllNew(labels, after) && OccursAt(after, name, i)
    ensures forall k :: 0 <= k < |labels| ==> labels[k].name != name
    decreases |labels|
  {
    if labels != [] {
      OccursShifted("{", after, name, i);
      IndexIsFirst("{" + after, labels[0].name, 0);
      var m := Matcher(labels[0]) + ",";
      OccursShifted(m, after, name, i);
      NewDiffersFromOld(labels[1..], m + after, name, |m| + i);
    }
  }

  lemma StartsWithName(lv: LabelValue, after: string)
    ensures OccursAt(Matcher(lv) + "," + after, lv.name, 0)
  {
    assert (Matcher(lv) + "," + after)[..|lv.name|] == lv.name;
  }

  lemma {:induction false} NewAreDistinct(labels: seq<LabelValue>, after: string)
    requires AllNew(labels, after)
    ensures Distinct(labels)
    decreases |labels|
  {
    if labels != [] {
      var next := Matcher(labels[0]) + "," + after;
      StartsWithName(labels[0], after);
      NewDiffersFromOld(labels[1..], next, labels[0].name, 0);
      NewAreDistinct(labels[1..], next);
    }
  }

  lemma ReversedKeeps(labels: seq<LabelValue>)
    requires AllClean(labels) && Distinct(labels)
    ensures AllClean(Reversed(labels)) && Distinct(Reversed(labels))
  {
  }

  // ----- the round trip -----------------------------------------------------------------------

  lemma EditorWritesFirst(base: string, query: string, p: string)
    requires '{' !in p
    ensures WritesFirst(EditOf(base, query), p)
  {
    forall after, lv: LabelValue | IndexFrom("{" + after, lv.name, 0) == -1
      ensures Edited(base, query, p + "{" + after, lv) == p + "{" + (Matcher(lv) + "," + after)
    {
      InsertsFirst(base, query, p, after, lv);
    }
  }

  /** All labels written one after the other, from a query with a selector on. */
  lemma WritesIntoSelector(base: string, query: string, p: string, after: string, labels: seq<LabelValue>)
    requires '{' !in p && AllNew(labels, after)
    ensures InTurn(EditOf(base, query), p + "{" + after, labels) == p + "{" + (Rendered(Reversed(labels)) + after)
  {
    EditorWritesFirst(base, query, p);
    WritesAll(EditOf(base, query), p, after, labels);
    WrittenReversed(labels, after);
  }

  /** From the selector `{}`, what is written comes back: every label with its values, in reverse order. */
  lemma SetThenGet(base: string, p: string, s: string, labels: seq<LabelValue>)
    requires '{' !in p && AllClean(labels) && AllNew(labels, "}" + s)
    ensures Labels(EditedAll(base, p + "{}" + s, labels)) == Normals(Reversed(labels))
  {
    var query := p + "{}" + s;
    assert query == p + "{" + ("}" + s);
    WritesIntoSelector(base, query, p, "}" + s, labels);
    NewAreDistinct(labels, "}" + s);
    ReversedKeeps(labels);
    assert "}" + s == "" + "}" + s;
    SelectorIsRead(p, Reversed(labels), "", s);
    AdjustedLast(Matchers(Reversed(labels)), "");
    NothingIsRead();
  }

  /** Where the editor puts a selector into a query that has none. */
  function Place(base: string, query: string): (r: nat)
    ensures r <= |query|
  {
    SliceBound(IndexFrom(query, base, 0) + |base|, query)
  }

  lemma FirstSelector(base: string, query: string, lv: LabelValue)
    requires '{' !in query
    ensures Edited(base, query, query, lv)
            == query[..Place(base, query)] + "{" + (Matcher(lv) + "}" + query[Place(base, query)..])
  {
    NoCharIndex(query, '{', 0);
  }

  /** That is right behind the base query, where that occurs first. */
  lemma SelectorBehindBase(base: string, a: string, b: string, lv: LabelValue)
    requires '{' !in a + base + b && IndexFrom(a + base + b, base, 0) == |a|
    ensures Edited(base, a + base + b, a + base + b, lv) == a + base + "{" + (Matcher(lv) + "}" + b)
  {
    FirstSelector(base, a + base + b, lv);
    assert (a + base + b)[..|a| + |base|] == a + base && (a + base + b)[|a| + |base|..] == b;
  }

  /** The rest after the last comma when the first label was written without one. */
  lemma RestOfSelector(list: seq<LabelValue>, first: LabelValue)
    requires Clean(first)
    ensures ReadMatcher(LastAdjusted(list, Matcher(first))) == if list == [] then Some(Normal(first)) else None
  {
    var m := Matcher(first);
    AdjustedLast(Matchers(list), m);
    if list == [] {
      MatcherIsRead(first);
    } else {
      CutMatcherIsLost(first);
      assert m[..|m| - 1] == first.name + "=~" + ("\"" + Join(first.values, "|"));
    }
  }

  /** The text when the labels are written into a query without a selector. */
  lemma WritesWithoutSelector(base: string, query: string, labels: seq<LabelValue>)
    requires '{' !in query && labels != []
    requires AllNew(labels[1..], Matcher(labels[0]) + "}" + query[Place(base, query)..])
    ensures EditedAll(base, query, labels)
            == query[..Place(base, query)] + "{"
               + (Rendered(Reversed(labels[1..])) + (Matcher(labels[0]) + "}" + query[Place(base, query)..]))
  {
    var p, s := query[..Place(base, query)], query[Place(base, query)..];
    FirstSelector(base, query, labels[0]);
    WritesIntoSelector(base, query, p, Matcher(labels[0]) + "}" + s, labels[1..]);
  }

  lemma FirstMatcherLast(p: string, more: seq<LabelValue>, first: LabelValue, s: string)
    requires '{' !in p && AllClean(more) && Clean(first) && Distinct(more)
    ensures Labels(p + "{" + (Rendered(Reversed(more)) + (Matcher(first) + "}" + s)))
            == if more == [] then [Normal(first)] else Normals(Reversed(more))
  {
    ReversedKeeps(more);
    MatcherChars(first);
    SelectorIsRead(p, Reversed(more), Matcher(first), s);
    RestOfSelector(Reversed(more), first);
  }

  lemma ReadWithoutSelector(base: string, query: string, labels: seq<LabelValue>)
    requires '{' !in query && labels != [] && AllClean(labels)
    requires AllNew(labels[1..], Matcher(labels[0]) + "}" + query[Place(base, query)..])
    ensures Labels(EditedAll(base, query, labels))
            == if labels[1..] == [] then [Normal(labels[0])] else Normals(Reversed(labels[1..]))
  {
    WritesWithoutSelector(base, query, labels);
    NewAreDistinct(labels[1..], Matcher(labels[0]) + "}" + query[Place(base, query)..]);
    FirstMatcherLast(query[..Place(base, query)], labels[1..], labels[0], query[Place(base, query)..]);
  }

  lemma OneLabel(labels: seq<LabelValue>)
    requires |labels| == 1
    ensures Normals(Reversed(labels)) == Normals(labels) == [Normal(labels[0])]
  {
    assert Reversed(labels) == labels;
  }

  lemma OneShort(labels: seq<LabelValue>, read: seq<LabelValue>)
    requires labels != []
    requires read == if labels[1..] == [] then [Normal(labels[0])] else Normals(Reversed(labels[1..]))
    ensures read == (if |labels| == 1 then Normals(labels) else Normals(Reversed(labels[1..])))
    ensures read == Normals(Reversed(labels)) <==> |labels| == 1
  {
    assert |Normals(Reversed(labels))| == |labels|;
    if |labels| == 1 {
      OneLabel(labels);
    } else {
      assert |read| == |labels| - 1;
    }
  }

  /** Without a selector the first label comes back only if it is the only one. */
  lemma SetThenGetWithoutSelector(base: string, query: string, labels: seq<LabelValue>)
    requires '{' !in query && labels != [] && AllClean(labels)
    requires AllNew(labels[1..], Matcher(labels[0]) + "}" + query[Place(base, query)..])
    ensures Labels(EditedAll(base, query, labels))
            == if |labels| == 1 then Normals(labels) else Normals(Reversed(labels[1..]))
    ensures Labels(EditedAll(base, query, labels)) == Normals(Reversed(labels)) <==> |labels| == 1
  {
    ReadWithoutSelector(base, query, labels);
    OneShort(labels, Labels(EditedAll(base, query, labels)));
  }

  // ----- two labels for a query without a selector --------------------------------------------

  const JOB := LabelValue("job", ["x"])
  const NODE := LabelValue("node", ["y"])

  /** A name whose first letter is not in the text is new. */
  lemma FirstLetterIsNew(name: string, after: string)
    requires name != "" && name[0] != '{' && name[0] !in after
    ensures IndexFrom("{" + after, name, 0) == -1
  {
    IndexIsFirst("{" + after, name, 0);
  }

  lemma LetterNotInMatcher(lv: LabelValue, c: char)
    requires c !in lv.name && c != '=' && c != '~' && c != '"' && |lv.values| == 1 && c !in lv.values[0]
    ensures c !in Matcher(lv)
  {
    assert Join(lv.values, "|") == lv.values[0];
  }

  predicate LowerCase(s: string) {
    forall c :: c in s ==> 'a' <= c <= 'z'
  }

  lemma LettersAreClean(c: char)
    requires 'a' <= c <= 'z'
    ensures NameChar(c) && ValueChar(c) && !IsSpace(c)
  {
  }

  lemma LowerCaseIsClean(lv: LabelValue)
    requires LowerCase(lv.name) && forall v :: v in lv.values ==> LowerCase(v)
    ensures Clean(lv)
  {
    forall c | 'a' <= c <= 'z'
      ensures NameChar(c) && ValueChar(c) && !IsSpace(c)
    {
      LettersAreClean(c);
    }
    assert lv.name != "" ==> lv.name[0] in lv.name;
    forall v, c | v in lv.values && c in v
      ensures ValueChar(c)
    {
      assert LowerCase(v);
      LettersAreClean(c);
    }
  }

  lemma JobAndNodeAreClean()
    ensures Clean(JOB) && Clean(NODE) && 'n' !in JOB.name && 'n' !in JOB.values[0]
  {
    assert LowerCase("job") && LowerCase("x") && LowerCase("node") && LowerCase("y");
    LowerCaseIsClean(JOB);
    LowerCaseIsClean(NODE);
  }

  lemma NodeIsNew(query: string, labels: seq<LabelValue>)
    requires 'n' !in query && labels == [JOB, NODE]
    ensures AllNew(labels[1..], Matcher(labels[0]) + "}" + query)
  {
    JobAndNodeAreClean();
    LetterNotInMatcher(JOB, 'n');
    FirstLetterIsNew(NODE.name, Matcher(JOB) + "}" + query);
    assert labels[1..] == [NODE] && labels[1..][1..] == [];
  }

  lemma SecondOfTwo(base: string, query: string, labels: seq<LabelValue>)
    requires '{' !in query && 'n' !in query && labels == [JOB, NODE]
    ensures Labels(EditedAll(base, query, labels)) == Normals(Reversed(labels[1..]))
  {
    JobAndNodeAreClean();
    var rest := query[Place(base, query)..];
    assert forall c :: c in rest ==> c in query;
    NodeIsNew(rest, labels);
    SetThenGetWithoutSelector(base, query, labels);
  }

  /** Of two labels written into the query `up`, only the second one is read back. */
  lemma FirstOfTwoIsLost()
    ensures Labels(EditedAll("up", "up", [JOB, NODE])) == [NODE]
  {
    SecondOfTwo("up", "up", [JOB, NODE]);
    assert [JOB, NODE][1..] == [NODE];
    OneLabel([NODE]);
    assert Normal(NODE) == NODE;
  }
}
