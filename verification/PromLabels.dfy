/**
 Editing and reading the labels of a PromQL query, as text: the editor writes a matcher for each label into
 the query's selector, the reader takes the first selector apart again.
 */
module PromLabels {
  import opened Prelude
  import opened JsText

  datatype LabelValue = LabelValue(name: string, values: seq<string>)

  const OPERATORS := ["==", "!=", "<=", "<", ">=", ">", "=~", "!~", "="]

  function Quoted(values: seq<string>): string {
    "\"" + Join(values, "|") + "\""
  }

  function Matcher(lv: LabelValue): string {
    lv.name + "=~" + Quoted(lv.values)
  }

  // ----- reading ------------------------------------------------------------------------------

  function FirstIn(operators: seq<string>, s: string): string {
    if operators == [] then ""
    else if IndexFrom(s, operators[0], 0) != -1 then operators[0]
    else FirstIn(operators[1..], s)
  }

  /** A label and its values: what precedes the operator, and what is between the first two quotes after it. */
  function ReadParts(labelAndValue: seq<string>): Option<LabelValue> {
    if |labelAndValue| < 2 then None
    else
      var text := Between(labelAndValue[1], '"', '"');
      if text == "" then None else Some(LabelValue(labelAndValue[0], Split(Substring(text, 1, |text| - 1), "|")))
  }

  function ReadMatcher(s: string): Option<LabelValue> {
    ReadParts(Split(Trim(s), FirstIn(OPERATORS, s)))
  }

  /** The part of piece i that is read: the first loses its brace, the last loses two characters of the piece. */
  function Adjusted(pieces: seq<string>, i: nat): string
    requires i < |pieces|
  {
    var s := if i == 0 then Substring(pieces[i], 1, |pieces[i]|) else pieces[i];
    if i == |pieces| - 1 then Substring(s, 0, |pieces[i]| - 2) else s
  }

  /** Values of a label seen before join those it has. */
  function Added(list: seq<LabelValue>, lv: LabelValue): (r: seq<LabelValue>) {
    if exists k :: 0 <= k < |list| && list[k].name == lv.name then
      seq(|list|, k requires 0 <= k < |list| =>
        if list[k].name == lv.name then LabelValue(lv.name, list[k].values + lv.values) else list[k])
    else list + [lv]
  }

  function Readings(read: string -> Option<LabelValue>, pieces: seq<string>): (r: seq<Option<LabelValue>>)
    ensures |r| == |pieces| && forall i :: 0 <= i < |pieces| ==> r[i] == read(Adjusted(pieces, i))
  {
    seq(|pieces|, i requires 0 <= i < |pieces| => read(Adjusted(pieces, i)))
  }

  /** The labels found by the first n readings. */
  function Collected(readings: seq<Option<LabelValue>>, n: nat): seq<LabelValue>
    requires n <= |readings|
  {
    if n == 0 then []
    else
      var list := Collected(readings, n - 1);
      if readings[n - 1].None? then list else Added(list, readings[n - 1].value)
  }

  function Labels(query: string): seq<LabelValue> {
    var selector := Between(query, '{', '}');
    if selector == "" then [] else LabelsOf(ReadMatcher, Split(selector, ","))
  }

  function LabelsOf(read: string -> Option<LabelValue>, pieces: seq<string>): seq<LabelValue> {
    Collected(Readings(read, pieces), |pieces|)
  }

  /** The reader's inner loop: values go to every entry with the label, or to a new entry. */
  method AddTo(list: seq<LabelValue>, lv: LabelValue) returns (updated: seq<LabelValue>)
    ensures updated == Added(list, lv)
  {
    updated := list;
    var updateStatus := false;
    for k := 0 to |list|
      invariant |updated| == |list|
      invariant updateStatus <==> exists j :: 0 <= j < k && list[j].name == lv.name
      invariant forall j :: 0 <= j < |list| ==>
                  updated[j] == if j < k && list[j].name == lv.name
                                then LabelValue(lv.name, list[j].values + lv.values) else list[j]
    {
      if updated[k].name == lv.name {
        updated := updated[k := LabelValue(updated[k].name, updated[k].values + lv.values)];
        updateStatus := true;
      }
    }
    if !updateStatus {
      assert updated == list;
      updated := updated + [lv];
    }
  }

  /** The reader's outer loop, over the pieces of a selector. */
  method ReadAll(read: string -> Option<LabelValue>, pieces: seq<string>) returns (list: seq<LabelValue>)
    ensures list == LabelsOf(read, pieces)
  {
    list := [];
    for i := 0 to |pieces|
      invariant list == Collected(Readings(read, pieces), i)
    {
      var found := read(Adjusted(pieces, i));
      if found.Some? {
        list := AddTo(list, found.value);
      }
    }
  }

  method GetLabelsAndValues(query: string) returns (list: seq<LabelValue>)
    ensures list == Labels(query)
  {
    list := [];
    var selector := Between(query, '{', '}');
    if selector != "" {
      list := ReadAll(ReadMatcher, Split(selector, ","));
    }
  }

  // ----- editing ------------------------------------------------------------------------------

  function ReplaceBetween(origin: string, start: int, end: int, insertion: string): string {
    Substring(origin, 0, start) + insertion + Substring(origin, end, |origin|)
  }

  /** A matcher for a label that is not in the query: first in the selector, or in a selector of its own. */
  function Inserted(base: string, query: string, existing: string, bracket: int, lv: LabelValue): string
    requires bracket < |existing|
  {
    if bracket < 0 then
      var end := SliceBound(IndexFrom(query, base, 0) + |base|, existing);
      existing[..end] + "{" + Matcher(lv) + "}" + existing[end..]
    else
      existing[..bracket + 1] + Matcher(lv) + "," + existing[bracket + 1..]
  }

  /** The first text like the given one is replaced, and then the operator between two places. */
  function Rewritten(existing: string, start: int, opening: int, text: string, subst: string): string {
    ReplaceBetween(Replace(existing, text, subst), start, opening, "=~")
  }

  /** Whether the matcher at a place is alone in its braces, going by the characters around it. */
  predicate Alone(existing: string, at: int, closing: int) {
    (IsAt(existing, closing + 1, '}') || IsAt(existing, closing + 2, '}')) && IsAt(existing, at - 1, '{')
  }

  /** The matcher at a place, with a comma right behind it, and with the braces if it is alone. */
  function Stretch(existing: string, at: int, closing: int): string {
    var grace := if Alone(existing, at, closing) then 1 else 0;
    var end := if IsAt(existing, closing + 1, ',') then closing + 2 + grace else closing + 1 + grace;
    Substring(existing, at - grace, end)
  }

  /** No more matcher for the label found at a place. */
  function Emptied(existing: string, at: int, closing: int): string {
    Replace(existing, Stretch(existing, at, closing), "")
  }

  /** The label found at a place gets other values, or goes if there are none; its quotes are where they are found. */
  function ChangedBetween(existing: string, at: int, opening: int, closing: int, lv: LabelValue): string {
    if opening == -1 || closing == -1 then existing
    else if lv.values != [] then
      Rewritten(existing, at + |lv.name|, opening, Substring(existing, opening, closing + 1), Quoted(lv.values))
    else Emptied(existing, at, closing)
  }

  /** A change that is given the places of the next two quotes. */
  function AtQuotes(existing: string, at: nat, change: (int, int) -> string): string
    requires at <= |existing|
  {
    var opening := IndexFrom(existing, "\"", at);
    change(opening, IndexFrom(existing, "\"", opening + 1))
  }

  function ChangeOf(existing: string, at: nat, lv: LabelValue): (int, int) -> string {
    (opening: int, closing: int) => ChangedBetween(existing, at, opening, closing, lv)
  }

  /** The query after one label's edit; the place after the base query is found in the query given at first. */
  function Edited(base: string, query: string, existing: string, lv: LabelValue): string {
    var bracket := IndexFrom(existing, "{", 0);
    var at := if bracket == -1 then -1 else IndexFrom(existing, lv.name, bracket);
    if at == -1 then Inserted(base, query, existing, bracket, lv)
    else AtQuotes(existing, at, ChangeOf(existing, at, lv))
  }

  /** One edit after the other. */
  function InTurn(edit: (string, LabelValue) -> string, existing: string, labels: seq<LabelValue>): string
    decreases |labels|
  {
    if labels == [] then existing else InTurn(edit, edit(existing, labels[0]), labels[1..])
  }

  function EditOf(base: string, query: string): (string, LabelValue) -> string {
    (s: string, lv: LabelValue) => Edited(base, query, s, lv)
  }

  function EditedAll(base: string, query: string, labels: seq<LabelValue>): string {
    InTurn(EditOf(base, query), query, labels)
  }

  lemma {:induction false} OneMoreTurn(edit: (string, LabelValue) -> string, existing: string,
                                       labels: seq<LabelValue>, lv: LabelValue)
    ensures InTurn(edit, existing, labels + [lv]) == edit(InTurn(edit, existing, labels), lv)
    decreases |labels|
  {
    if labels == [] {
      assert [lv][1..] == [];
    } else {
      OneMoreTurn(edit, edit(existing, labels[0]), labels[1..], lv);
      assert (labels + [lv])[1..] == labels[1..] + [lv];
    }
  }

  /** The editor's loop over the labels. */
  method EditInTurn(edit: (string, LabelValue) -> string, query: string, labels: seq<LabelValue>)
    returns (existing: string)
    ensures existing == InTurn(edit, query, labels)
  {
    existing := query;
    for i := 0 to |labels|
      invariant existing == InTurn(edit, query, labels[..i])
    {
      OneMoreTurn(edit, query, labels[..i], labels[i]);
      assert labels[..i + 1] == labels[..i] + [labels[i]];
      existing := edit(existing, labels[i]);
    }
    assert labels[..|labels|] == labels;
  }

  method SetLabelsAndValues(base: string, query: string, labels: seq<LabelValue>) returns (existing: string)
    ensures existing == EditedAll(base, query, labels)
  {
    existing := EditInTurn(EditOf(base, query), query, labels);
  }

  // ----- writing new labels -------------------------------------------------------------------

  /** The matchers of a list, each followed by a comma. */
  function Rendered(list: seq<LabelValue>): string {
    if list == [] then "" else Matcher(list[0]) + "," + Rendered(list[1..])
  }

  function Reversed(list: seq<LabelValue>): (r: seq<LabelValue>)
    ensures |r| == |list| && forall i :: 0 <= i < |list| ==> r[i] == list[|list| - 1 - i]
  {
    if list == [] then [] else Reversed(list[1..]) + [list[0]]
  }

  /** No label occurs in the text that follows the opening brace when its turn comes. */
  predicate AllNew(labels: seq<LabelValue>, after: string) {
    labels == []
    || (IndexFrom("{" + after, labels[0].name, 0) == -1 && AllNew(labels[1..], Matcher(labels[0]) + "," + after))
  }

  lemma OccursShifted(p: string, s: string, t: string, i: int)
    requires 0 <= i
    ensures OccursAt(p + s, t, |p| + i) == OccursAt(s, t, i)
  {
    if i + |t| <= |s| {
      assert (p + s)[|p| + i..|p| + i + |t|] == s[i..i + |t|];
    }
  }

  lemma {:induction false} IndexShifts(p: string, s: string, t: string, from: nat)
    requires from <= |s|
    ensures IndexFrom(p + s, t, |p| + from) == if IndexFrom(s, t, from) == -1 then -1 else |p| + IndexFrom(s, t, from)
    decreases |s| - from
  {
    OccursShifted(p, s, t, from);
    if !OccursAt(s, t, from) && from < |s| {
      IndexShifts(p, s, t, from + 1);
    }
  }

  /** A label that does not occur yet is written in front of the matchers there are. */
  lemma InsertsFirst(base: string, query: string, p: string, after: string, lv: LabelValue)
    requires '{' !in p && IndexFrom("{" + after, lv.name, 0) == -1
    ensures Edited(base, query, p + "{" + after, lv) == p + "{" + (Matcher(lv) + "," + after)
  {
    var text := p + "{" + after;
    assert text == p + ("{" + after);
    CharIndex(text, '{', 0, |p|);
    IndexShifts(p, "{" + after, lv.name, 0);
    assert text[..|p| + 1] == p + "{" && text[|p| + 1..] == after;
  }

  lemma {:induction false} RenderedConcat(a: seq<LabelValue>, b: seq<LabelValue>)
    ensures Rendered(a + b) == Rendered(a) + Rendered(b)
  {
    if a == [] {
      assert a + b == b;
    } else {
      assert (a + b)[1..] == a[1..] + b;
      RenderedConcat(a[1..], b);
    }
  }

  /** Writes unknown labels first. */
  ghost predicate WritesFirst(edit: (string, LabelValue) -> string, p: string) {
    forall after, lv: LabelValue :: IndexFrom("{" + after, lv.name, 0) == -1 ==>
      edit(p + "{" + after, lv) == p + "{" + (Matcher(lv) + "," + after)
  }

  /** The text after the opening brace once the labels are written, one in front of the other. */
  function Written(labels: seq<LabelValue>, after: string): string
    decreases |labels|
  {
    if labels == [] then after else Written(labels[1..], Matcher(labels[0]) + "," + after)
  }

  lemma {:induction false} WritesAll(edit: (string, LabelValue) -> string, p: string, after: string,
                                     labels: seq<LabelValue>)
    requires WritesFirst(edit, p) && AllNew(labels, after)
    ensures InTurn(edit, p + "{" + after, labels) == p + "{" + Written(labels, after)
    decreases |labels|
  {
    if labels != [] {
      WritesAll(edit, p, Matcher(labels[0]) + "," + after, labels[1..]);
    }
  }

  lemma RenderedReversed(labels: seq<LabelValue>)
    requires labels != []
    ensures Rendered(Reversed(labels)) == Rendered(Reversed(labels[1..])) + (Matcher(labels[0]) + ",")
  {
    RenderedConcat(Reversed(labels[1..]), [labels[0]]);
    assert Rendered([labels[0]]) == Matcher(labels[0]) + "," + Rendered([labels[0]][1..]);
  }

  /** Written labels come in reverse order. */
  lemma {:induction false} WrittenReversed(labels: seq<LabelValue>, after: string)
    ensures Written(labels, after) == Rendered(Reversed(labels)) + after
    decreases |labels|
  {
    if labels == [] {
    } else {
      var m := Matcher(labels[0]) + ",";
      WrittenReversed(labels[1..], m + after);
      RenderedReversed(labels);
    }
  }

  // ----- reading what was written -------------------------------------------------------------

  predicate NameChar(c: char) {
    c !in "=<>!\",}" && !EndsLine(c)
  }

  predicate ValueChar(c: char) {
    c !in "=<>\",|}" && !EndsLine(c)
  }

  /** Free of the characters that matchers are made of; the name does not start with a space. */
  ghost predicate Clean(lv: LabelValue) {
    && (forall c :: c in lv.name ==> NameChar(c))
    && (lv.name != "" ==> !IsSpace(lv.name[0]))
    && forall v :: v in lv.values ==> forall c :: c in v ==> ValueChar(c)
  }

  ghost predicate AllClean(labels: seq<LabelValue>) {
    forall k :: 0 <= k < |labels| ==> Clean(labels[k])
  }

  /** What comes back: no values are written, and read, as one empty value. */
  function Normal(lv: LabelValue): LabelValue {
    if lv.values == [] then LabelValue(lv.name, [""]) else lv
  }

  function Normals(labels: seq<LabelValue>): (r: seq<LabelValue>)
    ensures |r| == |labels| && forall k :: 0 <= k < |labels| ==> r[k] == Normal(labels[k])
  {
    seq(|labels|, k requires 0 <= k < |labels| => Normal(labels[k]))
  }

  predicate JoinedChar(c: char) {
    c !in "=<>\",}" && !EndsLine(c)
  }

  lemma JoinedIsClean(lv: LabelValue)
    requires Clean(lv)
    ensures forall c :: c in Join(lv.values, "|") ==> JoinedChar(c)
  {
    AllInJoin(lv.values, "|", JoinedChar);
  }

  lemma {:induction false} SkipsAbsent(absent: seq<string>, more: seq<string>, s: string)
    requires forall k :: 0 <= k < |absent| ==> IndexFrom(s, absent[k], 0) == -1
    ensures FirstIn(absent + more, s) == FirstIn(more, s)
  {
    if absent == [] {
      assert absent + more == more;
    } else {
      assert (absent + more)[1..] == absent[1..] + more;
      SkipsAbsent(absent[1..], more, s);
    }
  }

  /** The text after the operator. */
  ghost predicate AfterOperator(q: string) {
    forall c :: c in q ==> c !in "=<>"
  }

  lemma OperatorIsFound(name: string, q: string)
    requires (forall c :: c in name ==> NameChar(c)) && AfterOperator(q)
    ensures FirstIn(OPERATORS, name + "=~" + q) == "=~"
  {
    var s := name + "=~" + q;
    assert forall i :: 0 <= i < |name| ==> s[i] == name[i] && NameChar(s[i]);
    assert s[|name|] == '=' && s[|name| + 1] == '~';
    assert forall i :: |name| + 2 <= i < |s| ==> s[i] == q[i - |name| - 2] && s[i] !in "=<>";
    var absent := ["==", "!=", "<=", "<", ">=", ">"];
    forall k | 0 <= k < |absent|
      ensures IndexFrom(s, absent[k], 0) == -1
    {
      var t := absent[k];
      IndexIsFirst(s, t, 0);
      assert t[|t| - 1] in "=<>" && t[0] in "=!<>";
    }
    assert OPERATORS == absent + ["=~", "!~", "="];
    SkipsAbsent(absent, ["=~", "!~", "="], s);
    assert s[|name|..|name| + 2] == "=~";
    IndexIsFirst(s, "=~", 0);
    assert OccursAt(s, "=~", |name|);
  }

  lemma SplitsAtOperator(name: string, q: string)
    requires (forall c :: c in name ==> NameChar(c)) && AfterOperator(q)
    ensures Split(name + "=~" + q, "=~") == [name, q]
  {
    SplitFirst(name, "=~", q);
    SplitNone(q, "=~");
  }

  lemma QuotedIsRead(name: string, values: seq<string>)
    requires forall v :: v in values ==> '|' !in v
    requires forall c :: c in Join(values, "|") ==> JoinedChar(c)
    ensures ReadParts([name, Quoted(values)]) == Some(Normal(LabelValue(name, values)))
  {
    var q, joined := Quoted(values), Join(values, "|");
    assert q == "" + ['"'] + joined + ['"'] + "";
    BetweenIs("", '"', joined, '"', "");
    assert Substring(q, 1, |q| - 1) == joined;
    SplitJoin(values, '|');
  }

  lemma UnclosedIsNotRead(name: string, rest: string)
    requires '"' !in rest
    ensures ReadParts([name, "\"" + rest]) == None
  {
    assert ("\"" + rest)[1..] == rest;
    BetweenNone(rest, '"', '"');
  }

  lemma StaysTrimmed(name: string, q: string)
    requires name != "" ==> !IsSpace(name[0])
    ensures TrimStart(name + "=~" + q) == name + "=~" + q
  {
    assert (name + "=~" + q)[0] == if name == "" then '=' else name[0];
  }

  lemma NothingToTrim(name: string, q: string)
    requires name != "" ==> !IsSpace(name[0])
    requires q != "" && !IsSpace(q[|q| - 1])
    ensures Trim(name + "=~" + q) == name + "=~" + q
  {
    StaysTrimmed(name, q);
    var s := name + "=~" + q;
    assert s[|s| - 1] == q[|q| - 1];
  }

  lemma MatcherIsRead(lv: LabelValue)
    requires Clean(lv)
    ensures ReadMatcher(Matcher(lv)) == Some(Normal(lv))
  {
    var m, q := Matcher(lv), Quoted(lv.values);
    JoinedIsClean(lv);
    assert AfterOperator(q);
    OperatorIsFound(lv.name, q);
    NothingToTrim(lv.name, q);
    SplitsAtOperator(lv.name, q);
    assert forall v :: v in lv.values ==> forall c :: c in v ==> ValueChar(c);
    QuotedIsRead(lv.name, lv.values);
  }

  /** Without its closing quote a matcher is not read. */
  lemma CutMatcherIsLost(lv: LabelValue)
    requires Clean(lv)
    ensures ReadMatcher(lv.name + "=~" + ("\"" + Join(lv.values, "|"))) == None
  {
    JoinedIsClean(lv);
    CutTextIsLost(lv.name, Join(lv.values, "|"));
  }

  lemma Regrouped(a: string, b: string, c: string, d: string)
    ensures a + b + (c + d) == (a + b + c) + d
  {
  }

  lemma TrimsUnclosed(name: string, joined: string)
    requires name != "" ==> !IsSpace(name[0])
    ensures Trim(name + "=~" + ("\"" + joined)) == name + "=~" + ("\"" + TrimEnd(joined))
    ensures TrimEnd(joined) <= joined
  {
    var head := name + "=~" + "\"";
    StaysTrimmed(name, "\"" + joined);
    Regrouped(name, "=~", "\"", joined);
    Regrouped(name, "=~", "\"", TrimEnd(joined));
    assert head[|head| - 1] == '"';
    TrimEndKeeps(head, joined);
  }

  lemma CutTextIsLost(name: string, joined: string)
    requires forall c :: c in name ==> NameChar(c)
    requires name != "" ==> !IsSpace(name[0])
    requires forall c :: c in joined ==> JoinedChar(c)
    ensures ReadMatcher(name + "=~" + ("\"" + joined)) == None
  {
    OperatorIsFound(name, "\"" + joined);
    TrimsUnclosed(name, joined);
    assert TrimEnd(joined) == joined[..|TrimEnd(joined)|];
    assert forall c :: c in TrimEnd(joined) ==> JoinedChar(c);
    SplitsAtOperator(name, "\"" + TrimEnd(joined));
    UnclosedIsNotRead(name, TrimEnd(joined));
  }

  lemma NothingIsRead()
    ensures ReadMatcher("") == None
  {
    assert OPERATORS + [] == OPERATORS;
    SkipsAbsent(OPERATORS, [], "");
  }
}
