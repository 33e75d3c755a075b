/**
 Changing a label that a PromQL query has already, where its name is found: giving it other values, which hits
 that place exactly if no earlier quoted text is the same, and removing it, which undoes writing it.
 */
module PromEdits {
  import opened JsText
  import opened PromLabels

  function InQuotes(s: string): string {
    "\"" + s + "\""
  }

  // ----- the two replacements, by position ----------------------------------------------------

  lemma ReplacesAt(t: string, q: string, p: nat, subst: string)
    requires IndexFrom(t, q, 0) == p && NoPattern(subst)
    ensures p + |q| <= |t| && Replace(t, q, subst) == t[..p] + subst + t[p + |q|..]
  {
    ReplacesExpanded(t, q, p, subst);
    NothingToExpand(subst, q, t[..p], t[p + |q|..]);
  }

  lemma ReplacesExpanded(t: string, q: string, p: nat, subst: string)
    requires IndexFrom(t, q, 0) == p
    ensures p + |q| <= |t|
    ensures Replace(t, q, subst) == t[..p] + Expanded(subst, q, t[..p], t[p + |q|..]) + t[p + |q|..]
  {
  }

  lemma ReplacesBetween(x: string, start: nat, end: nat, insertion: string)
    requires start <= end <= |x|
    ensures ReplaceBetween(x, start, end, insertion) == x[..start] + insertion + x[end..]
  {
  }

  /** The text once the piece of length n at p is replaced, and then what is between start and end. */
  function Twice(t: string, p: nat, n: nat, subst: string, start: nat, end: nat): string
    requires p + n <= |t| && start <= end <= |t| - n + |subst|
  {
    var x := t[..p] + subst + t[p + n..];
    x[..start] + "=~" + x[end..]
  }

  lemma TwiceInPlace(t: string, n: nat, subst: string, start: nat, end: nat, stop: nat)
    requires start <= end && stop == end + n && stop <= |t|
    ensures Twice(t, end, n, subst, start, end) == t[..start] + "=~" + subst + t[stop..]
  {
    var x := t[..end] + subst + t[end + n..];
    assert x[..start] == t[..start];
    assert x[end..] == subst + t[stop..];
  }

  lemma TwiceTheSame(t: string, p: nat, q: string, n: nat, start: nat, end: nat, stop: nat)
    requires OccursAt(t, q, p) && OccursAt(t, q, end) && start <= end && n == |q| && stop == end + n
    ensures Twice(t, p, n, q, start, end) == t[..start] + "=~" + q + t[stop..]
  {
    assert t[..p] + q + t[p + n..] == t;
    assert t[end..] == q + t[stop..];
  }

  /** A replacement that ends before start shows in the text up to start. */
  lemma TwiceElsewhere(t: string, p: nat, u: string, v: string, start: nat, end: nat)
    requires OccursAt(t, InQuotes(u), p) && '"' !in u && '"' !in v && u != v
    requires p + |u| + 1 < start <= end && end + |u| + 2 <= |t|
    ensures start <= |Twice(t, p, |u| + 2, InQuotes(v), start, end)|
    ensures Twice(t, p, |u| + 2, InQuotes(v), start, end)[..start] != t[..start]
  {
    var x := t[..p] + InQuotes(v) + t[p + |u| + 2..];
    assert x[p..p + |v| + 2] == InQuotes(v);
    QuotedDiffer(x, t, p, v, u, start);
    assert Twice(t, p, |u| + 2, InQuotes(v), start, end)[..start] == x[..start];
  }

  lemma QuotedAt(s: string, p: nat, u: string)
    requires OccursAt(s, InQuotes(u), p)
    ensures s[p] == s[p + |u| + 1] == '"'
    ensures forall i {:trigger u[i]} :: 0 <= i < |u| ==> s[p + 1 + i] == u[i]
    ensures forall j {:trigger s[j]} :: p < j <= p + |u| ==> s[j] == u[j - p - 1]
  {
    var q := InQuotes(u);
    forall i | 0 <= i < |q|
      ensures s[p + i] == q[i]
    {
      assert s[p..p + |q|][i] == q[i];
    }
    assert q[|u| + 1] == '"';
    assert forall i {:trigger u[i]} :: 0 <= i < |u| ==> q[1 + i] == u[i];
  }

  /** Different texts quoted at the same place make the texts around them differ. */
  lemma QuotedDiffer(s: string, t: string, p: nat, u: string, v: string, limit: nat)
    requires u != v && '"' !in u && '"' !in v
    requires OccursAt(s, InQuotes(u), p) && OccursAt(t, InQuotes(v), p)
    requires p + |v| + 1 < limit <= |s| && limit <= |t|
    ensures s[..limit] != t[..limit]
  {
    QuotedAt(s, p, u);
    QuotedAt(t, p, v);
    if |u| < |v| {
      assert s[..limit][p + 1 + |u|] == '"' && t[..limit][p + 1 + |u|] == v[|u|];
    } else if |v| < |u| {
      assert t[..limit][p + 1 + |v|] == '"' && s[..limit][p + 1 + |v|] == u[|v|];
    } else {
      var i :| 0 <= i < |u| && u[i] != v[i];
      assert s[..limit][p + 1 + i] == u[i] && t[..limit][p + 1 + i] == v[i];
    }
  }

  // ----- other values for a label -------------------------------------------------------------

  /**
   A place in a query with the next quoted text: a label's name begins at `at` and ends at `start`, the first
   quote from there on is at `opening`. Whether it is the label's own matcher is another matter.
   */
  datatype Place = Place(at: nat, start: nat, opening: nat, value: string)

  function Closing(m: Place): nat {
    m.opening + |m.value| + 1
  }

  predicate QuotesAt(t: string, m: Place) {
    && m.at <= m.start <= m.opening && OccursAt(t, InQuotes(m.value), m.opening)
    && '"' !in m.value
    && forall i :: m.at <= i < m.opening ==> t[i] != '"'
  }

  /** The value's opening quote does not also close an earlier copy of the value. */
  predicate ClosesNoCopy(t: string, m: Place) {
    !OccursAt(t, InQuotes(m.value), m.opening - |m.value| - 1)
  }

  predicate MatcherAt(t: string, m: Place) {
    QuotesAt(t, m) && ClosesNoCopy(t, m)
  }

  lemma QuotesOf(t: string, m: Place)
    requires QuotesAt(t, m)
    ensures IndexFrom(t, "\"", m.at) == m.opening
    ensures IndexFrom(t, "\"", m.opening + 1) == Closing(m)
  {
    QuotedAt(t, m.opening, m.value);
    CharIndex(t, '"', m.at, m.opening);
    assert forall i :: m.opening + 1 <= i < m.opening + 1 + |m.value| ==> t[i] == m.value[i - m.opening - 1];
    CharIndex(t, '"', m.opening + 1, m.opening + |m.value| + 1);
  }

  lemma CutsQuoted(t: string, m: Place)
    requires QuotesAt(t, m)
    ensures Substring(t, m.opening, Closing(m) + 1) == InQuotes(m.value)
  {
  }

  /** An earlier occurrence of the quoted value ends before the label begins. */
  lemma EarlierEndsBefore(t: string, m: Place, p: nat)
    requires MatcherAt(t, m) && p < m.opening && OccursAt(t, InQuotes(m.value), p)
    ensures p + |m.value| + 1 < m.at
  {
    QuotedAt(t, p, m.value);
  }

  /** The text with new values, and the operator for several values, where the label is. */
  function Updated(t: string, m: Place, joined: string): string
    requires QuotesAt(t, m)
  {
    t[..m.start] + "=~" + InQuotes(joined) + t[Closing(m) + 1..]
  }

  lemma RewrittenIsTwice(t: string, p: nat, q: string, subst: string, start: nat, opening: nat)
    requires IndexFrom(t, q, 0) == p && OccursAt(t, q, opening) && start <= opening && NoPattern(subst)
    ensures p <= opening
    ensures Rewritten(t, start, opening, q, subst) == Twice(t, p, |q|, subst, start, opening)
  {
    IndexIsFirst(t, q, 0);
    ReplacesAt(t, q, p, subst);
    ReplacesBetween(t[..p] + subst + t[p + |q|..], start, opening, "=~");
  }

  lemma UpdatedStart(t: string, m: Place, joined: string)
    requires QuotesAt(t, m)
    ensures |Updated(t, m, joined)| >= m.start && Updated(t, m, joined)[..m.start] == t[..m.start]
  {
  }

  lemma TwiceExactly(t: string, m: Place, joined: string, p: nat)
    requires MatcherAt(t, m) && '"' !in joined && OccursAt(t, InQuotes(m.value), p) && p <= m.opening
    ensures Twice(t, p, |m.value| + 2, InQuotes(joined), m.start, m.opening) == Updated(t, m, joined)
            <==> joined == m.value || p == m.opening
  {
    if p == m.opening {
      TwiceInPlace(t, |m.value| + 2, InQuotes(joined), m.start, m.opening, Closing(m) + 1);
    } else if joined == m.value {
      TwiceTheSame(t, p, InQuotes(m.value), |m.value| + 2, m.start, m.opening, Closing(m) + 1);
    } else {
      EarlierEndsBefore(t, m, p);
      TwiceElsewhere(t, p, m.value, joined, m.start, m.opening);
      UpdatedStart(t, m, joined);
    }
  }

  lemma QuotesMakeNoPattern(s: string)
    requires NoPattern(s)
    ensures NoPattern(InQuotes(s))
  {
    var q := InQuotes(s);
    forall i | 0 <= i < |q| - 1
      ensures !(q[i] == '$' && q[i + 1] in "$&`'")
    {
      if 0 < i < |s| {
        assert q[i] == s[i - 1] && q[i + 1] == s[i - 1 + 1];
      }
    }
  }

  lemma RewritesExactly(t: string, m: Place, joined: string)
    requires MatcherAt(t, m) && '"' !in joined && NoPattern(joined)
    ensures Rewritten(t, m.start, m.opening, InQuotes(m.value), InQuotes(joined)) == Updated(t, m, joined)
            <==> joined == m.value || IndexFrom(t, InQuotes(m.value), 0) == m.opening
  {
    var p := IndexFrom(t, InQuotes(m.value), 0);
    IndexIsFirst(t, InQuotes(m.value), 0);
    QuotesMakeNoPattern(joined);
    RewrittenIsTwice(t, p, InQuotes(m.value), InQuotes(joined), m.start, m.opening);
    TwiceExactly(t, m, joined, p);
  }

  /** The label's name is found at a place with a quoted text behind it. */
  predicate FoundAt(t: string, name: string, m: Place) {
    && MatcherAt(t, m) && m.start == m.at + |name|
    && IndexFrom(t, "{", 0) != -1 && IndexFrom(t, name, IndexFrom(t, "{", 0)) == m.at
  }

  lemma EditChanges(base: string, query: string, t: string, at: nat, lv: LabelValue, r: string)
    requires at <= |t| && IndexFrom(t, "{", 0) != -1 && IndexFrom(t, lv.name, IndexFrom(t, "{", 0)) == at
    requires AtQuotes(t, at, ChangeOf(t, at, lv)) == r
    ensures Edited(base, query, t, lv) == r
  {
  }

  /** The next two quotes are at the given places. */
  ghost predicate GivesQuotes(t: string, at: nat, opening: nat, closing: nat) {
    at <= |t| && forall change :: AtQuotes(t, at, change) == change(opening, closing)
  }

  lemma QuotesAreGiven(t: string, m: Place)
    requires QuotesAt(t, m)
    ensures GivesQuotes(t, m.at, m.opening, Closing(m))
  {
    QuotesOf(t, m);
  }

  lemma ChangeRewrites(t: string, at: nat, start: nat, opening: nat, closing: nat, lv: LabelValue, text: string,
                       subst: string)
    requires lv.values != [] && Substring(t, opening, closing + 1) == text
    requires start == at + |lv.name| && subst == Quoted(lv.values)
    ensures ChangeOf(t, at, lv)(opening, closing) == Rewritten(t, start, opening, text, subst)
  {
  }

  lemma QuotesRewrite(t: string, at: nat, start: nat, opening: nat, closing: nat, lv: LabelValue, text: string,
                      subst: string)
    requires GivesQuotes(t, at, opening, closing) && lv.values != [] && Substring(t, opening, closing + 1) == text
    requires start == at + |lv.name| && subst == Quoted(lv.values)
    ensures AtQuotes(t, at, ChangeOf(t, at, lv)) == Rewritten(t, start, opening, text, subst)
  {
    ChangeRewrites(t, at, start, opening, closing, lv, text, subst);
  }

  lemma EditRewrites(base: string, query: string, t: string, at: nat, start: nat, opening: nat, closing: nat,
                     lv: LabelValue, text: string, subst: string)
    requires IndexFrom(t, "{", 0) != -1 && IndexFrom(t, lv.name, IndexFrom(t, "{", 0)) == at
    requires GivesQuotes(t, at, opening, closing) && lv.values != [] && Substring(t, opening, closing + 1) == text
    requires start == at + |lv.name| && subst == Quoted(lv.values)
    ensures Edited(base, query, t, lv) == Rewritten(t, start, opening, text, subst)
  {
    QuotesRewrite(t, at, start, opening, closing, lv, text, subst);
    EditChanges(base, query, t, at, lv, Rewritten(t, start, opening, text, subst));
  }

  /** Where the matcher is, in the terms of the edit. */
  lemma MatcherFound(t: string, m: Place, lv: LabelValue)
    requires FoundAt(t, lv.name, m)
    ensures MatcherAt(t, m) && m.start == m.at + |lv.name|
    ensures IndexFrom(t, "{", 0) != -1 && IndexFrom(t, lv.name, IndexFrom(t, "{", 0)) == m.at
    ensures GivesQuotes(t, m.at, m.opening, Closing(m))
    ensures Substring(t, m.opening, Closing(m) + 1) == InQuotes(m.value)
    ensures InQuotes(Join(lv.values, "|")) == Quoted(lv.values)
  {
    QuotesAreGiven(t, m);
    CutsQuoted(t, m);
  }

  lemma FirstExactly(t: string, q: string, k: nat)
    requires OccursAt(t, q, k)
    ensures IndexFrom(t, q, 0) == k <==> forall p :: p < k ==> !OccursAt(t, q, p)
  {
    IndexIsFirst(t, q, 0);
    var r := IndexFrom(t, q, 0);
    assert r != k ==> r < k && OccursAt(t, q, r);
  }

  /**
   Other values for a label, free of $-patterns, go to the place where its name is found exactly if no earlier
   quoted text equals the one there, or the values stay the same.
   */
  lemma UpdatesWhereFound(base: string, query: string, t: string, m: Place, lv: LabelValue)
    requires FoundAt(t, lv.name, m) && lv.values != []
    requires '"' !in Join(lv.values, "|") && NoPattern(Join(lv.values, "|"))
    ensures Edited(base, query, t, lv) == Updated(t, m, Join(lv.values, "|"))
            <==> Join(lv.values, "|") == m.value || forall p :: p < m.opening ==> !OccursAt(t, InQuotes(m.value), p)
  {
    MatcherFound(t, m, lv);
    EditRewrites(base, query, t, m.at, m.start, m.opening, Closing(m), lv, InQuotes(m.value),
                 InQuotes(Join(lv.values, "|")));
    RewritesExactly(t, m, Join(lv.values, "|"));
    FirstExactly(t, InQuotes(m.value), m.opening);
  }

  // ----- removing a label ---------------------------------------------------------------------

  /** A pattern's place is its first occurrence if some character of it does not occur before its own place. */
  lemma FirstByChar(t: string, q: string, k: nat, j: nat)
    requires OccursAt(t, q, k) && j < |q| && forall i :: 0 <= i < k + j ==> t[i] != q[j]
    ensures IndexFrom(t, q, 0) == k
  {
    IndexIsFirst(t, q, 0);
    var r := IndexFrom(t, q, 0);
    assert r != -1;
    assert t[r..r + |q|][j] == t[r + j];
  }

  lemma Removes(before: string, q: string, after: string, j: nat)
    requires j < |q| && forall i :: 0 <= i < |before| + j ==> (before + q)[i] != q[j]
    ensures Replace(before + q + after, q, "") == before + after
  {
    var t := before + q + after;
    assert t[|before|..|before| + |q|] == q;
    assert forall i :: 0 <= i < |before| + j ==> t[i] == (before + q)[i];
    FirstByChar(t, q, |before|, j);
    RemovesAt(t, q, before, after);
  }

  lemma RemovesAt(t: string, q: string, before: string, after: string)
    requires t == before + q + after && IndexFrom(t, q, 0) == |before|
    ensures Replace(t, q, "") == before + after
  {
    ReplacesAt(t, q, |before|, "");
    assert t[..|before|] == before && t[|before| + |q|..] == after;
    assert before + "" + after == before + after;
  }

  /** A name and the text of a matcher that follow the opening brace. */
  function Head(p: string, name: string, joined: string): string {
    p + "{" + (name + "=~" + InQuotes(joined) + ",")
  }

  function PlaceIn(p: string, name: string, joined: string): Place {
    Place(|p| + 1, |p| + 1 + |name|, |p| + 3 + |name|, joined)
  }

  lemma HeadQuotes(p: string, name: string, joined: string, after: string)
    requires '"' !in name && '"' !in joined
    ensures QuotesAt(Head(p, name, joined) + after, PlaceIn(p, name, joined))
  {
    var t, m := Head(p, name, joined) + after, PlaceIn(p, name, joined);
    assert t[m.opening..m.opening + |joined| + 2] == InQuotes(joined);
    assert t[m.at..m.opening] == name + "=~";
    assert forall i :: m.at <= i < m.opening ==> t[i] == t[m.at..m.opening][i - m.at];
  }

  /** With a text that does not start with a closing brace after it, the matcher and its comma go. */
  lemma EmptiedAlone(p: string, name: string, joined: string, after: string)
    requires '"' !in p && '"' !in name && !IsAt(after, 0, '}')
    ensures Emptied(Head(p, name, joined) + after, |p| + 1, |p| + |name| + |joined| + 4) == p + "{" + after
  {
    var q := name + "=~" + InQuotes(joined) + ",";
    var t, before := Head(p, name, joined) + after, p + "{";
    var closing := |p| + |name| + |joined| + 4;
    EndOfHead(p, name, joined, after);
    assert Substring(t, |p| + 1, closing + 2) == q;
    assert t == before + q + after;
    assert q[|name| + 2] == '"';
    assert (before + q)[..|before| + |name| + 2] == before + (name + "=~");
    assert forall i :: 0 <= i < |before| + |name| + 2 ==> (before + q)[i] == (before + (name + "=~"))[i];
    Removes(before, q, after, |name| + 2);
  }

  lemma EndOfHead(p: string, name: string, joined: string, after: string)
    ensures var t, closing := Head(p, name, joined) + after, |p| + |name| + |joined| + 4;
            && IsAt(t, |p|, '{') && IsAt(t, closing + 1, ',') && |Head(p, name, joined)| == closing + 2
            && (IsAt(t, closing + 2, '}') <==> IsAt(after, 0, '}'))
  {
  }

  /** A matcher that is alone in its selector takes the selector's braces with it. */
  lemma EmptiedWithBraces(p: string, name: string, joined: string, after: string)
    requires '{' !in p
    ensures Emptied(Head(p, name, joined) + ("}" + after), |p| + 1, |p| + |name| + |joined| + 4) == p + after
  {
    var q := "{" + (name + "=~" + InQuotes(joined) + ",") + "}";
    var t := Head(p, name, joined) + ("}" + after);
    var closing := |p| + |name| + |joined| + 4;
    EndOfHead(p, name, joined, "}" + after);
    assert Substring(t, |p|, closing + 3) == q;
    assert t == p + q + after;
    assert q[0] == '{';
    Removes(p, q, after, 0);
  }

  lemma ChangeEmpties(t: string, at: nat, opening: nat, closing: nat, name: string)
    ensures ChangeOf(t, at, LabelValue(name, []))(opening, closing) == Emptied(t, at, closing)
  {
  }

  /** A label just written in front is found there. */
  lemma FoundInFront(p: string, name: string, joined: string, after: string)
    requires '{' !in p && '{' !in name && name != ""
    ensures var t := Head(p, name, joined) + after;
            IndexFrom(t, "{", 0) == |p| && IndexFrom(t, name, |p|) == |p| + 1
  {
    var t := Head(p, name, joined) + after;
    CharIndex(t, '{', 0, |p|);
    assert t[|p| + 1..|p| + 1 + |name|] == name;
    assert OccursAt(t, name, |p| + 1) && t[|p|] == '{';
    IndexIsFirst(t, name, |p|);
  }

  /**
   Removing a label that was just written gives back the query, except that a selector that was empty goes
   with its braces.
   */
  lemma RemovingUndoesWriting(base: string, query: string, p: string, after: string, lv: LabelValue)
    requires '{' !in p && '"' !in p && '{' !in lv.name && '"' !in lv.name && '"' !in Join(lv.values, "|")
    requires IndexFrom("{" + after, lv.name, 0) == -1
    ensures Edited(base, query, Edited(base, query, p + "{" + after, lv), LabelValue(lv.name, []))
            == if IsAt(after, 0, '}') then p + after[1..] else p + "{" + after
  {
    var joined := Join(lv.values, "|");
    InsertsFirst(base, query, p, after, lv);
    assert p + "{" + (Matcher(lv) + "," + after) == Head(p, lv.name, joined) + after;
    assert lv.name == "" ==> OccursAt("{" + after, lv.name, 0);
    RemovesHead(base, query, p, lv.name, joined, after);
  }

  lemma QuotesEmpty(t: string, at: nat, opening: nat, closing: nat, name: string)
    requires GivesQuotes(t, at, opening, closing)
    ensures AtQuotes(t, at, ChangeOf(t, at, LabelValue(name, []))) == Emptied(t, at, closing)
  {
    ChangeEmpties(t, at, opening, closing, name);
  }

  lemma HeadIsEmptied(p: string, name: string, joined: string, after: string)
    requires '{' !in p && '"' !in p && '"' !in name
    ensures Emptied(Head(p, name, joined) + after, |p| + 1, |p| + |name| + |joined| + 4)
            == if IsAt(after, 0, '}') then p + after[1..] else p + "{" + after
  {
    if IsAt(after, 0, '}') {
      assert after == "}" + after[1..];
      EmptiedWithBraces(p, name, joined, after[1..]);
    } else {
      EmptiedAlone(p, name, joined, after);
    }
  }

  lemma HeadGivesQuotes(p: string, name: string, joined: string, after: string)
    requires '"' !in name && '"' !in joined
    ensures GivesQuotes(Head(p, name, joined) + after, |p| + 1, |p| + |name| + 3, |p| + |name| + |joined| + 4)
  {
    HeadQuotes(p, name, joined, after);
    QuotesAreGiven(Head(p, name, joined) + after, PlaceIn(p, name, joined));
  }

  lemma HeadIsChanged(p: string, name: string, joined: string, after: string)
    requires '{' !in p && '"' !in p && '"' !in name && '"' !in joined
    ensures var t := Head(p, name, joined) + after;
            && |p| + 1 <= |t|
            && AtQuotes(t, |p| + 1, ChangeOf(t, |p| + 1, LabelValue(name, [])))
               == if IsAt(after, 0, '}') then p + after[1..] else p + "{" + after
  {
    var t := Head(p, name, joined) + after;
    HeadGivesQuotes(p, name, joined, after);
    QuotesEmpty(t, |p| + 1, |p| + |name| + 3, |p| + |name| + |joined| + 4, name);
    HeadIsEmptied(p, name, joined, after);
  }

  lemma RemovesHead(base: string, query: string, p: string, name: string, joined: string, after: string)
    requires '{' !in p && '"' !in p && '{' !in name && '"' !in name && '"' !in joined && name != ""
    ensures Edited(base, query, Head(p, name, joined) + after, LabelValue(name, []))
            == if IsAt(after, 0, '}') then p + after[1..] else p + "{" + after
  {
    FoundInFront(p, name, joined, after);
    HeadIsChanged(p, name, joined, after);
    EditChanges(base, query, Head(p, name, joined) + after, |p| + 1, LabelValue(name, []),
                if IsAt(after, 0, '}') then p + after[1..] else p + "{" + after);
  }

  // ----- removing a label wherever it is ------------------------------------------------------

  /** The stretch that goes: the matcher with a comma that follows it, and with the braces if it is alone. */
  function Begin(t: string, m: Place): (r: nat)
    ensures r <= m.at
  {
    if Alone(t, m.at, Closing(m)) then m.at - 1 else m.at
  }

  function End(t: string, m: Place): nat {
    Closing(m) + 1 + (if IsAt(t, Closing(m) + 1, ',') then 1 else 0) + (if Alone(t, m.at, Closing(m)) then 1 else 0)
  }

  lemma StretchBounds(t: string, m: Place)
    requires QuotesAt(t, m)
    ensures Begin(t, m) <= m.at <= m.opening < End(t, m) <= |t|
  {
  }

  lemma StretchIs(t: string, m: Place)
    requires Begin(t, m) <= m.at <= End(t, m) <= |t|
    ensures Stretch(t, m.at, Closing(m)) == t[Begin(t, m)..End(t, m)]
  {
  }

  /** The text from r on shows the stretch from b to e. */
  ghost predicate Shows(t: string, b: nat, e: nat, r: nat) {
    e <= |t| && r + (e - b) <= |t| && forall j {:trigger t[j]} :: b <= j < e ==> t[r + (j - b)] == t[j]
  }

  lemma OccurrenceShows(t: string, b: nat, e: nat, r: nat)
    requires b <= e <= |t| && OccursAt(t, t[b..e], r)
    ensures Shows(t, b, e, r)
  {
    forall j | b <= j < e
      ensures t[r + (j - b)] == t[j]
    {
      assert t[r..r + (e - b)][j - b] == t[b..e][j - b];
    }
  }

  lemma ShowsName(t: string, b: nat, e: nat, r: nat, at: nat, name: string)
    requires b <= at && at + |name| <= e && Shows(t, b, e, r) && OccursAt(t, name, at)
    ensures OccursAt(t, name, r + (at - b))
  {
    var k := r + (at - b);
    forall i | 0 <= i < |name|
      ensures t[k + i] == name[i]
    {
      assert t[at + i] == t[at..at + |name|][i];
      assert t[r + ((at + i) - b)] == t[at + i];
    }
    assert t[k..k + |name|] == name;
  }

  /** A stretch of a name that is first found at a place, and of a quote, does not occur earlier. */
  lemma NotEarlier(t: string, b: nat, e: nat, r: nat, at: nat, opening: nat, bracket: nat, name: string)
    requires b <= at && at + |name| <= opening < e && Shows(t, b, e, r)
    requires t[opening] == '"' && forall i :: at <= i < opening ==> t[i] != '{'
    requires bracket < |t| && t[bracket] == '{' && forall i :: 0 <= i < bracket ==> t[i] != '"'
    requires OccursAt(t, name, at) && forall i :: bracket <= i < at ==> !OccursAt(t, name, i)
    ensures r >= b
  {
    var k, quote := r + (at - b), r + (opening - b);
    assert t[quote] == t[opening];
    ShowsName(t, b, e, r, at, name);
    forall i | k < i < quote
      ensures t[i] != '{'
    {
      var j := i - r + b;
      assert t[r + (j - b)] == t[j];
    }
  }

  /** Before the first brace there is no quote, and no brace between a label and its value. */
  predicate Tidy(t: string, m: Place) {
    && IndexFrom(t, "{", 0) != -1
    && (forall i :: 0 <= i < IndexFrom(t, "{", 0) ==> t[i] != '"')
    && forall i :: m.at <= i < m.opening && i < |t| ==> t[i] != '{'
  }

  /** The stretch does not occur before its own place. */
  lemma StretchIsFirst(t: string, m: Place, name: string, b: nat, e: nat)
    requires QuotesAt(t, m) && m.start == m.at + |name| && Tidy(t, m)
    requires IndexFrom(t, name, IndexFrom(t, "{", 0)) == m.at
    requires b <= m.at <= m.opening < e <= |t|
    ensures IndexFrom(t, t[b..e], 0) == b
  {
    QuotedAt(t, m.opening, m.value);
    IndexIsFirst(t, "{", 0);
    IndexIsFirst(t, name, IndexFrom(t, "{", 0));
    FirstAtItsPlace(t, b, e, m.at, m.opening, IndexFrom(t, "{", 0), name);
  }

  lemma FirstAtItsPlace(t: string, b: nat, e: nat, at: nat, opening: nat, bracket: nat, name: string)
    requires b <= at && at + |name| <= opening < e <= |t|
    requires t[opening] == '"' && forall i :: at <= i < opening ==> t[i] != '{'
    requires bracket < |t| && t[bracket] == '{' && forall i :: 0 <= i < bracket ==> t[i] != '"'
    requires OccursAt(t, name, at) && forall i :: bracket <= i < at ==> !OccursAt(t, name, i)
    ensures IndexFrom(t, t[b..e], 0) == b
  {
    forall r: nat | r < b
      ensures !OccursAt(t, t[b..e], r)
    {
      NoCopyEarlier(t, b, e, r, at, opening, bracket, name);
    }
    OccursFirst(t, t[b..e], b);
  }

  lemma NoCopyEarlier(t: string, b: nat, e: nat, r: nat, at: nat, opening: nat, bracket: nat, name: string)
    requires r < b <= at && at + |name| <= opening < e <= |t|
    requires t[opening] == '"' && forall i :: at <= i < opening ==> t[i] != '{'
    requires bracket < |t| && t[bracket] == '{' && forall i :: 0 <= i < bracket ==> t[i] != '"'
    requires OccursAt(t, name, at) && forall i :: bracket <= i < at ==> !OccursAt(t, name, i)
    ensures !OccursAt(t, t[b..e], r)
  {
    if OccursAt(t, t[b..e], r) {
      OccurrenceShows(t, b, e, r);
      NotEarlier(t, b, e, r, at, opening, bracket, name);
    }
  }

  lemma OccursFirst(t: string, q: string, k: nat)
    requires k + |q| <= |t| && t[k..k + |q|] == q && forall r :: 0 <= r < k ==> !OccursAt(t, q, r)
    ensures IndexFrom(t, q, 0) == k
  {
    FirstExactly(t, q, k);
  }

  /** What goes for a lone matcher starts with its opening brace, and ends in the closing one only if that is next. */
  lemma BracesGoExactly(t: string, m: Place)
    requires QuotesAt(t, m) && Alone(t, m.at, Closing(m))
    ensures Begin(t, m) < End(t, m) <= |t| && t[Begin(t, m)] == '{'
    ensures t[End(t, m) - 1] == '}' <==> IsAt(t, Closing(m) + 1, '}') || IsAt(t, Closing(m) + 1, ',')
  {
  }

  /**
   In a tidy query, removing a label takes away what follows from the place where its name is found to the
   closing quote: with a comma right behind it, and if it is taken to be alone one character more on either side.
   */
  lemma RemovesWhereFound(base: string, query: string, t: string, m: Place, name: string)
    requires QuotesAt(t, m) && m.start == m.at + |name| && Tidy(t, m)
    requires IndexFrom(t, name, IndexFrom(t, "{", 0)) == m.at
    ensures Begin(t, m) <= End(t, m) <= |t|
    ensures Edited(base, query, t, LabelValue(name, [])) == t[..Begin(t, m)] + t[End(t, m)..]
  {
    EmptiedIsCut(t, m, name);
    QuotesAreGiven(t, m);
    EditEmpties(base, query, t, m.at, m.opening, Closing(m), name);
  }

  lemma EditEmpties(base: string, query: string, t: string, at: nat, opening: nat, closing: nat, name: string)
    requires IndexFrom(t, "{", 0) != -1 && IndexFrom(t, name, IndexFrom(t, "{", 0)) == at
    requires GivesQuotes(t, at, opening, closing)
    ensures Edited(base, query, t, LabelValue(name, [])) == Emptied(t, at, closing)
  {
    QuotesEmpty(t, at, opening, closing, name);
    EditChanges(base, query, t, at, LabelValue(name, []), Emptied(t, at, closing));
  }

  lemma EmptiedIsCut(t: string, m: Place, name: string)
    requires QuotesAt(t, m) && m.start == m.at + |name| && Tidy(t, m)
    requires IndexFrom(t, name, IndexFrom(t, "{", 0)) == m.at
    ensures Begin(t, m) <= End(t, m) <= |t|
    ensures Emptied(t, m.at, Closing(m)) == t[..Begin(t, m)] + t[End(t, m)..]
  {
    StretchBounds(t, m);
    StretchIs(t, m);
    StretchIsFirst(t, m, name, Begin(t, m), End(t, m));
    CutsOut(t, Begin(t, m), End(t, m));
  }

  lemma CutsOut(t: string, b: nat, e: nat)
    requires b <= e <= |t| && IndexFrom(t, t[b..e], 0) == b
    ensures Replace(t, t[b..e], "") == t[..b] + t[e..]
  {
    ReplacesAt(t, t[b..e], b, "");
  }

  // ----- edits that go wrong ------------------------------------------------------------------

  /** A label of one letter in a selector that starts at 1. */
  lemma LetterIsFound(t: string, at: nat, letter: char)
    requires 1 < at < |t| && t[0] != '{' && t[1] == '{' && t[at] == letter
    requires forall i :: 1 <= i < at ==> t[i] != letter
    ensures IndexFrom(t, "{", 0) == 1 && IndexFrom(t, [letter], 1) == at
  {
    CharIndex(t, '{', 0, 1);
    CharIndex(t, letter, 1, at);
  }

  lemma LetterInQuotes(t: string, k: nat, letter: char)
    requires k + 3 <= |t| && t[k] == '"' && t[k + 1] == letter && t[k + 2] == '"'
    ensures OccursAt(t, InQuotes([letter]), k)
  {
    assert t[k..k + 3] == InQuotes([letter]);
  }

  const SAME_VALUE := "m{b=" + "\"x\"" + ",a=" + "\"x\"" + "}"
  const MISSED := "m{b=\"x\",a=~\"y\"}"

  lemma SameValueFound(t: string, m: Place)
    requires t == SAME_VALUE && m == Place(8, 9, 10, "x")
    ensures FoundAt(t, "a", m) && OccursAt(t, InQuotes(m.value), 4)
    ensures Updated(t, m, "y") == MISSED
  {
    LetterIsFound(t, 8, 'a');
    assert t[4..7] == InQuotes("x") && t[10..13] == InQuotes("x");
    assert t[8] == 'a' && t[9] == '=';
    assert t[..9] + "=~" + InQuotes("y") + t[13..] == MISSED;
  }

  lemma JoinOne(values: seq<string>)
    requires |values| == 1
    ensures Join(values, "|") == values[0]
  {
  }

  lemma SameValueNotUpdated(base: string, query: string, t: string, m: Place, lv: LabelValue)
    requires t == SAME_VALUE && m == Place(8, 9, 10, "x") && lv.name == "a" && lv.values == ["y"]
    ensures Edited(base, query, t, lv) != MISSED
  {
    SameValueFound(t, m);
    JoinOne(lv.values);
    UpdatesWhereFound(base, query, t, m, lv);
  }

  /** Of two labels with one value, the second one's edit does not reach it. */
  lemma SameValueIsMissed(base: string, query: string)
    ensures Edited(base, query, SAME_VALUE, LabelValue("a", ["y"])) != MISSED
  {
    SameValueNotUpdated(base, query, SAME_VALUE, Place(8, 9, 10, "x"), LabelValue("a", ["y"]));
  }

  const ONE_LABEL := "m{a=\"x\"}"

  lemma OneLabelFound(t: string, m: Place)
    requires t == ONE_LABEL && m == Place(2, 3, 4, "x")
    ensures FoundAt(t, "a", m) && IndexFrom(t, InQuotes(m.value), 0) == 4
  {
    LetterIsFound(t, 2, 'a');
    assert t[2] == 'a' && t[3] == '=';
    LetterInQuotes(t, 4, 'x');
    assert forall i :: 0 <= i < 4 ==> t[i] != '"';
    FirstByChar(t, InQuotes("x"), 4, 0);
  }

  /** What a pattern stands for in the text around the value `x` of ONE_LABEL. */
  function Meaning(pattern: string): string {
    match pattern
    case "$&" => "\"x\""
    case "$`" => "m{a="
    case "$'" => "}"
    case _ => "$"
  }

  predicate Pattern(s: string) {
    s == "$&" || s == "$`" || s == "$'" || s == "$$"
  }

  lemma PatternExpands(subst: string, pattern: string, matched: string, before: string, after: string)
    requires Pattern(pattern) && subst == "\"" + pattern + "\""
    requires matched == "\"x\"" && before == "m{a=" && after == "}"
    ensures Expanded(subst, matched, before, after) == "\"" + Meaning(pattern) + "\""
  {
    assert subst[1..][2..] == "\"";
    assert Expanded("\"", matched, before, after) == "\"";
    assert subst[0] == '"' && subst[1] == pattern[0] == '$' && subst[2] == pattern[1];
    assert Expanded(subst[1..], matched, before, after) == Meaning(pattern) + "\"";
  }

  /** The text after both replacements has what the pattern stands for in its place. */
  lemma RewrittenWithPattern(t: string, q: string, subst: string, pattern: string)
    requires t == ONE_LABEL && q == "\"x\"" && IndexFrom(t, q, 0) == 4
    requires Pattern(pattern) && subst == "\"" + pattern + "\""
    ensures Rewritten(t, 3, 4, q, subst) == "m{a" + "=~" + ("\"" + Meaning(pattern) + "\"") + "}"
  {
    assert t[..4] == "m{a=" && t[7..] == "}";
    PatternExpands(subst, pattern, q, t[..4], t[7..]);
    var inner := "\"" + Meaning(pattern) + "\"";
    var x := t[..4] + inner + t[7..];
    ReplacesBetween(x, 3, 4, "=~");
    assert x[..3] == "m{a" && x[4..] == inner + "}";
  }

  lemma PatternNotKept(base: string, query: string, t: string, m: Place, lv: LabelValue, pattern: string)
    requires t == ONE_LABEL && m == Place(2, 3, 4, "x") && lv.name == "a" && lv.values == [pattern] && Pattern(pattern)
    ensures Edited(base, query, t, lv) == "m{a" + "=~" + ("\"" + Meaning(pattern) + "\"") + "}"
  {
    OneLabelFound(t, m);
    MatcherFound(t, m, lv);
    var q, subst := InQuotes(m.value), InQuotes(Join(lv.values, "|"));
    JoinOne(lv.values);
    RewrittenWithPattern(t, q, subst, pattern);
    EditRewrites(base, query, t, m.at, 3, 4, Closing(m), lv, q, subst);
  }

  /** A new value with a $-pattern is not written as it is. */
  lemma PatternIsExpanded(base: string, query: string, pattern: string, expanded: string)
    requires || (pattern == "$&" && expanded == "\"x\"") || (pattern == "$`" && expanded == "m{a=")
             || (pattern == "$'" && expanded == "}") || (pattern == "$$" && expanded == "$")
    ensures Edited(base, query, ONE_LABEL, LabelValue("a", [pattern]))
            == "m{a" + "=~" + ("\"" + expanded + "\"") + "}"
  {
    assert Meaning(pattern) == expanded;
    PatternNotKept(base, query, ONE_LABEL, Place(2, 3, 4, "x"), LabelValue("a", [pattern]), pattern);
  }

  const SPACED := "m{a=\"x\" }"

  lemma SpacedFound(t: string, m: Place)
    requires t == SPACED && m == Place(2, 3, 4, "x")
    ensures QuotesAt(t, m) && Tidy(t, m) && IndexFrom(t, "a", IndexFrom(t, "{", 0)) == m.at
    ensures Begin(t, m) == 1 && End(t, m) == 8
  {
    LetterIsFound(t, 2, 'a');
    assert t[2] == 'a' && t[3] == '=';
    LetterInQuotes(t, 4, 'x');
    assert t[6] == '"' && t[7] == ' ' && t[8] == '}';
  }

  lemma SpacedRest(t: string)
    requires t == SPACED
    ensures t[..1] + t[8..] == "m}"
  {
  }

  lemma SpacedIsCut(base: string, query: string, t: string, m: Place, name: string)
    requires t == SPACED && m == Place(2, 3, 4, "x") && name == "a"
    ensures Edited(base, query, t, LabelValue(name, [])) == "m}"
  {
    SpacedFound(t, m);
    SpacedRest(t);
    RemovesWhereFound(base, query, t, m, name);
  }

  /** With a space in front of the closing brace, removing the only label leaves that brace behind. */
  lemma ClosingBraceIsLeft(base: string, query: string)
    ensures Edited(base, query, SPACED, LabelValue("a", [])) == "m}"
  {
    SpacedIsCut(base, query, SPACED, Place(2, 3, 4, "x"), "a");
  }
}
