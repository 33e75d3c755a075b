/**
 Reading a query back after a label that it has already was changed: other values show for that label and
 nothing else changes, and a label that was removed is gone.
 */
module PromReadBack {
  import opened JsText
  import opened PromLabels
  import opened PromEdits
  import PromRoundTrip

  /** A query whose selector has the matchers of a list. */
  function Query(p: string, list: seq<LabelValue>, s: string): string {
    p + "{" + (Rendered(list) + ("}" + s))
  }

  lemma QueryIsRead(p: string, list: seq<LabelValue>, s: string)
    requires '{' !in p && AllClean(list) && PromRoundTrip.Distinct(list)
    ensures Labels(Query(p, list, s)) == Normals(list)
  {
    assert "" + "}" + s == "}" + s;
    PromRoundTrip.SelectorIsRead(p, list, "", s);
    PromRoundTrip.AdjustedLast(PromRoundTrip.Matchers(list), "");
    NothingIsRead();
  }

  // ----- a matcher among others ---------------------------------------------------------------

  /** The text of a matcher between what precedes and what follows it. */
  function Amid(h: string, name: string, joined: string, rest: string): string {
    h + (name + "=~" + InQuotes(joined) + ",") + rest
  }

  function PlaceAmid(h: string, name: string, joined: string): Place {
    Place(|h|, |h| + |name|, |h| + |name| + 2, joined)
  }

  lemma AmidQuotes(h: string, name: string, joined: string, rest: string)
    requires '"' !in name && '"' !in joined
    ensures QuotesAt(Amid(h, name, joined, rest), PlaceAmid(h, name, joined))
  {
    var t, m := Amid(h, name, joined, rest), PlaceAmid(h, name, joined);
    assert t[m.opening..m.opening + |joined| + 2] == InQuotes(joined);
    assert t[m.at..m.opening] == name + "=~";
    assert forall i :: m.at <= i < m.opening ==> t[i] == t[m.at..m.opening][i - m.at];
  }

  lemma UpdatedAmid(h: string, name: string, joined: string, rest: string, other: string)
    requires QuotesAt(Amid(h, name, joined, rest), PlaceAmid(h, name, joined))
    ensures Updated(Amid(h, name, joined, rest), PlaceAmid(h, name, joined), other) == Amid(h, name, other, rest)
  {
    var t, m := Amid(h, name, joined, rest), PlaceAmid(h, name, joined);
    assert t[..m.start] == h + name;
    assert t[Closing(m) + 1..] == "," + rest;
    assert Amid(h, name, other, rest) == h + name + "=~" + InQuotes(other) + ("," + rest);
  }

  lemma RenderedAmid(p: string, a: seq<LabelValue>, lv: LabelValue, b: seq<LabelValue>, s: string)
    ensures Query(p, a + [lv] + b, s)
            == Amid(p + "{" + Rendered(a), lv.name, Join(lv.values, "|"), Rendered(b) + ("}" + s))
  {
    RenderedConcat(a + [lv], b);
    RenderedConcat(a, [lv]);
    RenderedOne(lv);
    Reassociated(p, Rendered(a), Matcher(lv) + ",", Rendered(b), "}" + s);
    MatcherText(lv);
  }

  lemma RenderedOne(lv: LabelValue)
    ensures Rendered([lv]) == Matcher(lv) + ","
  {
    assert [lv][1..] == [];
  }

  lemma MatcherText(lv: LabelValue)
    ensures Matcher(lv) + "," == lv.name + "=~" + InQuotes(Join(lv.values, "|")) + ","
  {
  }

  lemma Reassociated(p: string, a: string, m: string, b: string, s: string)
    ensures p + "{" + ((a + m + b) + s) == (p + "{" + a) + m + (b + s)
  {
  }

  // ----- other values -------------------------------------------------------------------------

  lemma NameHasNoQuote(lv: LabelValue)
    requires Clean(lv)
    ensures '"' !in lv.name && '"' !in Join(lv.values, "|")
  {
    JoinedIsClean(lv);
    assert !NameChar('"') && !JoinedChar('"');
  }

  lemma ChangedAmid(base: string, query: string, h: string, l: LabelValue, rest: string, lv: LabelValue)
    requires '"' !in l.name && '"' !in Join(l.values, "|") && '"' !in Join(lv.values, "|")
    requires lv.name == l.name && lv.values != [] && NoPattern(Join(lv.values, "|"))
    requires var t := Amid(h, l.name, Join(l.values, "|"), rest);
             && IndexFrom(t, "{", 0) != -1 && IndexFrom(t, l.name, IndexFrom(t, "{", 0)) == |h|
             && forall k :: k < |h| + |l.name| + 2 ==> !OccursAt(t, InQuotes(Join(l.values, "|")), k)
    ensures Edited(base, query, Amid(h, l.name, Join(l.values, "|"), rest), lv)
            == Amid(h, l.name, Join(lv.values, "|"), rest)
  {
    var v := Join(l.values, "|");
    AmidQuotes(h, l.name, v, rest);
    UpdatesWhereFound(base, query, Amid(h, l.name, v, rest), PlaceAmid(h, l.name, v), lv);
    UpdatedAmid(h, l.name, v, rest, Join(lv.values, "|"));
  }

  /** The editor finds the label at its own matcher, the first one after a list. */
  predicate FoundAfter(t: string, p: string, a: seq<LabelValue>, name: string) {
    |p| <= |t| && IndexFrom(t, name, |p|) == |p| + 1 + |Rendered(a)|
  }

  /** No text before the matcher's own value is like it. */
  ghost predicate FirstOfItsKind(t: string, p: string, a: seq<LabelValue>, l: LabelValue) {
    forall k :: k < |p| + 1 + |Rendered(a)| + |l.name| + 2 ==> !OccursAt(t, InQuotes(Join(l.values, "|")), k)
  }

  lemma FirstBrace(p: string, more: string)
    requires '{' !in p
    ensures IndexFrom(p + "{" + more, "{", 0) == |p|
  {
    CharIndex(p + "{" + more, '{', 0, |p|);
  }

  lemma ValuesChange(base: string, query: string, p: string, a: seq<LabelValue>, l: LabelValue,
                     b: seq<LabelValue>, s: string, lv: LabelValue)
    requires '{' !in p && Clean(l) && Clean(lv) && lv.name == l.name
    requires lv.values != [] && NoPattern(Join(lv.values, "|"))
    requires FoundAfter(Query(p, a + [l] + b, s), p, a, l.name)
    requires FirstOfItsKind(Query(p, a + [l] + b, s), p, a, l)
    ensures Edited(base, query, Query(p, a + [l] + b, s), lv) == Query(p, a + [lv] + b, s)
  {
    NameHasNoQuote(l);
    NameHasNoQuote(lv);
    FirstBrace(p, Rendered(a + [l] + b) + ("}" + s));
    RenderedAmid(p, a, l, b, s);
    RenderedAmid(p, a, lv, b, s);
    ChangedAmid(base, query, p + "{" + Rendered(a), l, Rendered(b) + ("}" + s), lv);
  }

  lemma ReplacedStaysClean(a: seq<LabelValue>, l: LabelValue, b: seq<LabelValue>, lv: LabelValue)
    requires AllClean(a + [l] + b) && PromRoundTrip.Distinct(a + [l] + b) && Clean(lv) && lv.name == l.name
    ensures Clean(l) && AllClean(a + [lv] + b) && PromRoundTrip.Distinct(a + [lv] + b)
  {
    var old_, new_ := a + [l] + b, a + [lv] + b;
    assert old_[|a|] == l;
    assert forall k :: 0 <= k < |new_| ==> new_[k] == if k == |a| then lv else old_[k];
    assert forall k :: 0 <= k < |new_| ==> new_[k].name == old_[k].name;
  }

  /** After other values are set for a label, it is read with these, and the other labels as before. */
  lemma ChangedValuesAreRead(base: string, query: string, p: string, a: seq<LabelValue>, l: LabelValue,
                             b: seq<LabelValue>, s: string, lv: LabelValue)
    requires '{' !in p && AllClean(a + [l] + b) && PromRoundTrip.Distinct(a + [l] + b)
    requires Clean(lv) && lv.name == l.name && lv.values != [] && NoPattern(Join(lv.values, "|"))
    requires FoundAfter(Query(p, a + [l] + b, s), p, a, l.name)
    requires FirstOfItsKind(Query(p, a + [l] + b, s), p, a, l)
    ensures Labels(Query(p, a + [l] + b, s)) == Normals(a + [l] + b)
    ensures Labels(Edited(base, query, Query(p, a + [l] + b, s), lv)) == Normals(a + [lv] + b)
  {
    ReplacedStaysClean(a, l, b, lv);
    ValuesChange(base, query, p, a, l, b, s, lv);
    QueryIsRead(p, a + [l] + b, s);
    QueryIsRead(p, a + [lv] + b, s);
  }

  // ----- removal ------------------------------------------------------------------------------

  /** Where the stretch that is removed begins and ends, in a text with a comma behind the matcher. */
  lemma StretchAmid(h: string, name: string, joined: string, rest: string)
    requires h != ""
    ensures var t, m, q := Amid(h, name, joined, rest), PlaceAmid(h, name, joined), |h| + |name| + |joined| + 5;
            && q <= |t| && t[..|h|] == h && t[q..] == rest
            && (Alone(t, m.at, Closing(m)) <==> h[|h| - 1] == '{' && IsAt(rest, 0, '}'))
            && Begin(t, m) == (if Alone(t, m.at, Closing(m)) then |h| - 1 else |h|)
            && End(t, m) == (if Alone(t, m.at, Closing(m)) then q + 1 else q)
  {
    var t, m, q := Amid(h, name, joined, rest), PlaceAmid(h, name, joined), |h| + |name| + |joined| + 5;
    assert t[q - 1] == ',' && Closing(m) + 1 == q - 1;
    assert t[|h| - 1] == h[|h| - 1];
    assert rest != "" ==> t[q] == rest[0];
  }

  /** What is left of the text in front of a matcher and behind it. */
  function LeftBy(h: string, rest: string): string
    requires h != ""
  {
    if h[|h| - 1] == '{' && IsAt(rest, 0, '}') then h[..|h| - 1] + rest[1..] else h + rest
  }

  lemma CutAmid(h: string, name: string, joined: string, rest: string)
    requires h != ""
    ensures var t, m := Amid(h, name, joined, rest), PlaceAmid(h, name, joined);
            && Begin(t, m) <= End(t, m) <= |t|
            && t[..Begin(t, m)] + t[End(t, m)..]
               == LeftBy(h, rest)
  {
    var t, q := Amid(h, name, joined, rest), |h| + |name| + |joined| + 5;
    StretchAmid(h, name, joined, rest);
    assert t[..|h| - 1] == h[..|h| - 1];
    assert rest != "" ==> t[q + 1..] == rest[1..];
  }

  lemma TidyAmid(p: string, a: string, name: string, joined: string, rest: string)
    requires '{' !in p && '"' !in p && '{' !in name && '"' !in name
    ensures Tidy(Amid(p + "{" + a, name, joined, rest), PlaceAmid(p + "{" + a, name, joined))
    ensures IndexFrom(Amid(p + "{" + a, name, joined, rest), "{", 0) == |p|
  {
    var t, m := Amid(p + "{" + a, name, joined, rest), PlaceAmid(p + "{" + a, name, joined);
    assert t == p + "{" + (a + (name + "=~" + InQuotes(joined) + ",") + rest);
    FirstBrace(p, a + (name + "=~" + InQuotes(joined) + ",") + rest);
    assert t[..|p|] == p;
    assert t[m.at..m.opening] == name + "=~";
    assert forall i :: m.at <= i < m.opening ==> t[i] == t[m.at..m.opening][i - m.at];
    assert forall i :: 0 <= i < |p| ==> t[i] == t[..|p|][i];
  }

  /** Without one label the rest is there, or if there was no other one the selector is gone as well. */
  function Reduced(p: string, a: seq<LabelValue>, b: seq<LabelValue>, s: string): string {
    if a + b == [] then p + s else Query(p, a + b, s)
  }

  lemma {:induction false} RenderedEnds(list: seq<LabelValue>)
    requires list != []
    ensures Rendered(list) != "" && Rendered(list)[|Rendered(list)| - 1] == ','
  {
    if |list| > 1 {
      RenderedEnds(list[1..]);
    }
  }

  lemma RenderedBegins(list: seq<LabelValue>)
    requires list != [] && Clean(list[0])
    ensures Rendered(list) != "" && Rendered(list)[0] != '}'
  {
    MatcherBegins(list[0]);
  }

  lemma MatcherBegins(lv: LabelValue)
    requires Clean(lv)
    ensures Matcher(lv) != "" && Matcher(lv)[0] != '}'
  {
    assert Matcher(lv)[0] == if lv.name == "" then '=' else lv.name[0];
    assert lv.name != "" ==> lv.name[0] in lv.name && NameChar(lv.name[0]);
  }

  lemma LeftOver(p: string, a: seq<LabelValue>, b: seq<LabelValue>, s: string)
    requires b != [] ==> Clean(b[0])
    ensures var h, rest := p + "{" + Rendered(a), Rendered(b) + ("}" + s);
            LeftBy(h, rest) == Reduced(p, a, b, s)
  {
    RenderedConcat(a, b);
    if a != [] {
      RenderedEnds(a);
    }
    if b != [] {
      RenderedBegins(b);
    }
    JoinedUp(p, Rendered(a), Rendered(b), "}" + s);
  }

  lemma JoinedUp(p: string, a: string, b: string, s: string)
    ensures (p + "{" + a) + (b + s) == p + "{" + ((a + b) + s)
  {
  }

  lemma LabelGoes(base: string, query: string, p: string, a: seq<LabelValue>, l: LabelValue,
                  b: seq<LabelValue>, s: string)
    requires '{' !in p && '"' !in p && '{' !in l.name && Clean(l) && (b != [] ==> Clean(b[0]))
    requires FoundAfter(Query(p, a + [l] + b, s), p, a, l.name)
    ensures Edited(base, query, Query(p, a + [l] + b, s), LabelValue(l.name, [])) == Reduced(p, a, b, s)
  {
    NameHasNoQuote(l);
    RenderedAmid(p, a, l, b, s);
    LeftOver(p, a, b, s);
    RemovedFrom(base, query, Query(p, a + [l] + b, s), p, Rendered(a), l.name, Join(l.values, "|"),
                Rendered(b) + ("}" + s), Reduced(p, a, b, s));
  }

  lemma RemovedFrom(base: string, query: string, t: string, p: string, a: string, name: string, joined: string,
                    rest: string, left: string)
    requires '{' !in p && '"' !in p && '{' !in name && '"' !in name && '"' !in joined
    requires t == Amid(p + "{" + a, name, joined, rest)
    requires |p| <= |t| && IndexFrom(t, name, |p|) == |p| + 1 + |a|
    requires left == LeftBy(p + "{" + a, rest)
    ensures Edited(base, query, t, LabelValue(name, [])) == left
  {
    RemovedAmid(base, query, p, a, name, joined, rest);
  }

  lemma RemovedAmid(base: string, query: string, p: string, a: string, name: string, joined: string, rest: string)
    requires '{' !in p && '"' !in p && '{' !in name && '"' !in name && '"' !in joined
    requires |p| <= |Amid(p + "{" + a, name, joined, rest)|
    requires IndexFrom(Amid(p + "{" + a, name, joined, rest), name, |p|) == |p| + 1 + |a|
    ensures var h := p + "{" + a;
            Edited(base, query, Amid(h, name, joined, rest), LabelValue(name, [])) == LeftBy(h, rest)
  {
    var h := p + "{" + a;
    AmidQuotes(h, name, joined, rest);
    TidyAmid(p, a, name, joined, rest);
    CutAmid(h, name, joined, rest);
    RemovesWhereFound(base, query, Amid(h, name, joined, rest), PlaceAmid(h, name, joined), name);
  }

  lemma WithoutOneStaysClean(a: seq<LabelValue>, l: LabelValue, b: seq<LabelValue>)
    requires AllClean(a + [l] + b) && PromRoundTrip.Distinct(a + [l] + b)
    ensures Clean(l) && AllClean(a + b) && PromRoundTrip.Distinct(a + b) && (b != [] ==> Clean(b[0]))
  {
    var all, others := a + [l] + b, a + b;
    assert all[|a|] == l;
    assert b != [] ==> others[|a|] == b[0];
    forall k | 0 <= k < |others|
      ensures Clean(others[k])
    {
      assert others[k] == all[if k < |a| then k else k + 1];
    }
    forall i, j | 0 <= i < j < |others|
      ensures others[i].name != others[j].name
    {
      assert others[i] == all[if i < |a| then i else i + 1];
      assert others[j] == all[if j < |a| then j else j + 1];
    }
  }

  lemma NothingBetween(p: string, s: string)
    requires '{' !in p && '{' !in s
    ensures Labels(p + s) == []
  {
    BetweenNone(p + s, '{', '}');
  }

  /** After a label is removed, the other labels are read as before. */
  lemma RemovedLabelIsGone(base: string, query: string, p: string, a: seq<LabelValue>, l: LabelValue,
                           b: seq<LabelValue>, s: string)
    requires '{' !in p && '"' !in p && '{' !in l.name && (a + b == [] ==> '{' !in s)
    requires AllClean(a + [l] + b) && PromRoundTrip.Distinct(a + [l] + b)
    requires FoundAfter(Query(p, a + [l] + b, s), p, a, l.name)
    ensures Labels(Query(p, a + [l] + b, s)) == Normals(a + [l] + b)
    ensures Labels(Edited(base, query, Query(p, a + [l] + b, s), LabelValue(l.name, []))) == Normals(a + b)
  {
    WithoutOneStaysClean(a, l, b);
    LabelGoes(base, query, p, a, l, b, s);
    QueryIsRead(p, a + [l] + b, s);
    if a + b == [] {
      NothingBetween(p, s);
    } else {
      QueryIsRead(p, a + b, s);
    }
  }

  // ----- a label on its own, and one without a value ------------------------------------------

  /** A matcher that is alone between its braces. */
  function Lone(p: string, name: string, joined: string, rest: string): string {
    p + "{" + (name + "=~" + InQuotes(joined)) + "}" + rest
  }

  lemma LoneQuotes(p: string, name: string, joined: string, rest: string)
    requires '"' !in name && '"' !in joined
    ensures QuotesAt(Lone(p, name, joined, rest), PlaceIn(p, name, joined))
  {
    var t, m := Lone(p, name, joined, rest), PlaceIn(p, name, joined);
    assert t[m.opening..m.opening + |joined| + 2] == InQuotes(joined);
    assert t[m.at..m.opening] == name + "=~";
    assert forall i :: m.at <= i < m.opening ==> t[i] == t[m.at..m.opening][i - m.at];
  }

  lemma LoneFound(p: string, name: string, joined: string, rest: string)
    requires '{' !in p && '{' !in name && name != ""
    ensures var t := Lone(p, name, joined, rest);
            IndexFrom(t, "{", 0) == |p| && IndexFrom(t, name, |p|) == |p| + 1
  {
    var t := Lone(p, name, joined, rest);
    assert t[..|p|] == p && t[|p|] == '{';
    CharIndex(t, '{', 0, |p|);
    assert t[|p| + 1..|p| + 1 + |name|] == name;
    assert OccursAt(t, name, |p| + 1);
    IndexIsFirst(t, name, |p|);
  }

  lemma LoneTidy(p: string, name: string, joined: string, rest: string)
    requires '{' !in p && '"' !in p && '{' !in name && name != ""
    ensures Tidy(Lone(p, name, joined, rest), PlaceIn(p, name, joined))
  {
    var t, m := Lone(p, name, joined, rest), PlaceIn(p, name, joined);
    LoneFound(p, name, joined, rest);
    assert t[..|p|] == p;
    assert t[m.at..m.opening] == name + "=~";
    assert forall i :: m.at <= i < m.opening ==> t[i] == t[m.at..m.opening][i - m.at];
    assert forall i :: 0 <= i < |p| ==> t[i] == t[..|p|][i];
  }

  lemma LoneStretch(p: string, name: string, joined: string, rest: string)
    ensures var t, m := Lone(p, name, joined, rest), PlaceIn(p, name, joined);
            && Begin(t, m) == |p| && End(t, m) <= |t| && t[..|p|] == p && t[End(t, m)..] == rest
  {
    var t, m := Lone(p, name, joined, rest), PlaceIn(p, name, joined);
    assert t[|p|] == '{' && t[Closing(m) + 1] == '}';
    assert t[Closing(m) + 2..] == rest;
  }

  /** Removing a label that is alone in its braces, with no comma behind it, takes the braces with it. */
  lemma LoneLabelGoes(base: string, query: string, p: string, name: string, joined: string, rest: string)
    requires '{' !in p && '"' !in p && '{' !in name && name != "" && '"' !in name && '"' !in joined
    ensures Edited(base, query, Lone(p, name, joined, rest), LabelValue(name, [])) == p + rest
  {
    LoneQuotes(p, name, joined, rest);
    LoneFound(p, name, joined, rest);
    LoneTidy(p, name, joined, rest);
    LoneStretch(p, name, joined, rest);
    RemovesWhereFound(base, query, Lone(p, name, joined, rest), PlaceIn(p, name, joined), name);
  }

  /** So removing the first label that was written into a query without a selector gives back the query. */
  lemma RemovingUndoesFirst(base: string, query: string, lv: LabelValue)
    requires '{' !in query && '"' !in query[..PromRoundTrip.Place(base, query)]
    requires '{' !in lv.name && lv.name != "" && '"' !in lv.name && '"' !in Join(lv.values, "|")
    ensures Edited(base, query, Edited(base, query, query, lv), LabelValue(lv.name, [])) == query
  {
    var k := PromRoundTrip.Place(base, query);
    PromRoundTrip.FirstSelector(base, query, lv);
    LoneMatcher(query[..k], lv, query[k..]);
    assert query[..k] + query[k..] == query;
    LoneGoesFrom(base, query, Edited(base, query, query, lv), query[..k], lv, query[k..]);
  }

  lemma LoneGoesFrom(base: string, query: string, t: string, p: string, lv: LabelValue, rest: string)
    requires t == Lone(p, lv.name, Join(lv.values, "|"), rest) && '{' !in p && '"' !in p
    requires '{' !in lv.name && lv.name != "" && '"' !in lv.name && '"' !in Join(lv.values, "|")
    ensures Edited(base, query, t, LabelValue(lv.name, [])) == p + rest
  {
    LoneLabelGoes(base, query, p, lv.name, Join(lv.values, "|"), rest);
  }

  lemma LoneMatcher(p: string, lv: LabelValue, rest: string)
    ensures p + "{" + (Matcher(lv) + "}" + rest) == Lone(p, lv.name, Join(lv.values, "|"), rest)
  {
    var m := lv.name + "=~" + InQuotes(Join(lv.values, "|"));
    assert Matcher(lv) == m;
    assert p + "{" + (m + "}" + rest) == p + "{" + m + "}" + rest;
  }

  lemma FewerThanTwoQuotes(t: string, at: nat)
    requires at <= |t| && forall i, j :: at <= i < j < |t| ==> !(t[i] == '"' && t[j] == '"')
    ensures var opening := IndexFrom(t, "\"", at); opening == -1 || IndexFrom(t, "\"", opening + 1) == -1
  {
    var opening := IndexFrom(t, "\"", at);
    IndexIsFirst(t, "\"", at);
    if opening != -1 {
      assert t[opening] == '"';
      NoCharIndex(t, '"', opening + 1);
    }
  }

  lemma UnchangedWithoutQuotes(t: string, at: nat, lv: LabelValue, opening: int, closing: int)
    requires opening == -1 || closing == -1
    ensures ChangeOf(t, at, lv)(opening, closing) == t
  {
  }

  lemma NoQuotesNoChange(t: string, at: nat, lv: LabelValue)
    requires at <= |t| && forall i, j :: at <= i < j < |t| ==> !(t[i] == '"' && t[j] == '"')
    ensures AtQuotes(t, at, ChangeOf(t, at, lv)) == t
  {
    FewerThanTwoQuotes(t, at);
    var opening := IndexFrom(t, "\"", at);
    UnchangedWithoutQuotes(t, at, lv, opening, IndexFrom(t, "\"", opening + 1));
  }

  /** A name that is found with fewer than two quotes behind it is left alone. */
  lemma WithoutQuotesNothingChanges(base: string, query: string, t: string, lv: LabelValue, at: nat)
    requires IndexFrom(t, "{", 0) != -1 && IndexFrom(t, lv.name, IndexFrom(t, "{", 0)) == at
    requires forall i, j :: at <= i < j < |t| ==> !(t[i] == '"' && t[j] == '"')
    ensures Edited(base, query, t, lv) == t
  {
    NoQuotesNoChange(t, at, lv);
    EditChanges(base, query, t, at, lv, t);
  }
}
