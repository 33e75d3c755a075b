/**
 Which matcher an edit hits. The editor looks for the label's name as a text anywhere after the first brace, so
 that it can come upon the name inside another label's name or value; this module compares where it looks with
 the label's own matcher, and says exactly when an edit does what it should.
 */
module PromPlaces {
  import opened JsText
  import opened PromLabels
  import opened PromEdits

  predicate NameLetter(c: char) {
    'a' <= c <= 'z' || 'A' <= c <= 'Z' || '0' <= c <= '9' || c == '_'
  }

  predicate IsLabelName(name: string) {
    name != "" && forall c :: c in name ==> NameLetter(c)
  }

  /** A matcher of the label itself: behind a brace, comma or space its name, then an operator and a quoted value. */
  predicate Own(t: string, name: string, m: Place) {
    && IsLabelName(name) && QuotesAt(t, m) && m.start == m.at + |name|
    && IndexFrom(t, "{", 0) != -1 && IndexFrom(t, "{", 0) < m.at
    && OccursAt(t, name, m.at) && (t[m.at - 1] in "{," || IsSpace(t[m.at - 1]))
    && Trim(t[m.start..m.opening]) in OPERATORS
  }

  /** Where the editor finds the label: the first text like its name, and the next two quotes. */
  predicate Finds(t: string, name: string, f: Place) {
    && QuotesAt(t, f) && f.start == f.at + |name|
    && IndexFrom(t, "{", 0) != -1 && IndexFrom(t, name, IndexFrom(t, "{", 0)) == f.at
  }

  lemma NoQuoteInName(t: string, name: string, k: nat)
    requires IsLabelName(name) && OccursAt(t, name, k)
    ensures forall i :: k <= i < k + |name| ==> t[i] != '"'
  {
    forall i | k <= i < k + |name|
      ensures t[i] != '"'
    {
      assert t[i] == t[k..k + |name|][i - k] && name[i - k] in name;
    }
  }

  /** From a place on, the next quote. */
  lemma {:induction false} NextQuote(t: string, from: nat, quote: nat) returns (k: nat)
    requires from <= quote < |t| && t[quote] == '"'
    ensures from <= k <= quote && t[k] == '"' && forall i :: from <= i < k ==> t[i] != '"'
    decreases quote - from
  {
    if t[from] == '"' {
      return from;
    }
    k := NextQuote(t, from + 1, quote);
  }

  lemma QuotedBetween(t: string, opening: nat, closing: nat)
    requires opening < closing < |t| && t[opening] == '"' && t[closing] == '"'
    requires forall i :: opening < i < closing ==> t[i] != '"'
    ensures '"' !in t[opening + 1..closing] && OccursAt(t, InQuotes(t[opening + 1..closing]), opening)
  {
    assert t[opening..closing + 1] == InQuotes(t[opening + 1..closing]);
  }

  /** A label that has a matcher is found, there or earlier. */
  lemma FindsSomething(t: string, name: string, m: Place) returns (f: Place)
    requires Own(t, name, m)
    ensures Finds(t, name, f) && f.at <= m.at && Closing(f) <= Closing(m)
  {
    IndexIsFirst(t, name, IndexFrom(t, "{", 0));
    var at := IndexFrom(t, name, IndexFrom(t, "{", 0));
    QuotedAt(t, m.opening, m.value);
    f := NextQuotes(t, at, name, m.opening, Closing(m));
  }

  lemma NextQuotes(t: string, at: nat, name: string, opening: nat, closing: nat) returns (f: Place)
    requires IsLabelName(name) && OccursAt(t, name, at) && at <= opening < closing < |t|
    requires t[opening] == '"' && t[closing] == '"'
    ensures QuotesAt(t, f) && f.at == at && f.start == at + |name| && Closing(f) <= closing
  {
    var first := NextQuote(t, at, opening);
    var second := NextQuote(t, first + 1, closing);
    NoQuoteInName(t, name, at);
    QuotedBetween(t, first, second);
    f := Place(at, at + |name|, first, t[first + 1..second]);
  }

  /** Two places with the next quotes: the same ones if they begin at the same place. */
  lemma PlacesInOrder(t: string, f: Place, m: Place)
    requires QuotesAt(t, f) && QuotesAt(t, m) && f.at <= m.at
    ensures f.opening <= m.opening
    ensures f.opening == m.opening ==> f.value == m.value
    ensures f.opening >= m.at ==> f.opening == m.opening
    ensures f.opening < m.at ==> Closing(f) < m.at || Closing(f) == m.opening
  {
    QuotedAt(t, f.opening, f.value);
    QuotedAt(t, m.opening, m.value);
    if f.opening == m.opening {
      SameQuoted(t, f.opening, f.value, m.value);
    }
  }

  lemma SameQuoted(t: string, k: nat, u: string, v: string)
    requires OccursAt(t, InQuotes(u), k) && OccursAt(t, InQuotes(v), k) && '"' !in u && '"' !in v
    ensures u == v
  {
    if u != v {
      QuotedDiffer(t, t, k, u, v, |t|);
    }
  }

  // ----- updates at different places ----------------------------------------------------------

  lemma QuoteSplits(u: string, x: string, v: string, y: string)
    requires '"' !in u && '"' !in v && u + "\"" + x == v + "\"" + y
    ensures u == v && x == y
  {
    var s, t := u + "\"" + x, v + "\"" + y;
    assert s[|u|] == '"' && t[|v|] == '"';
    assert forall i :: 0 <= i < |v| ==> t[i] == v[i];
    assert forall i :: 0 <= i < |u| ==> s[i] == u[i];
    assert |u| == |v|;
    assert s[..|u|] == u && t[..|v|] == v;
    assert s[|u| + 1..] == x && t[|v| + 1..] == y;
  }

  /** If an update leaves the text up to its quote as it was, the operator was the one for several values. */
  lemma OperatorWasThere(t: string, f: Place, joined: string, n: nat)
    requires QuotesAt(t, f) && f.opening < n <= |t|
    requires n <= |Updated(t, f, joined)| && Updated(t, f, joined)[..n] == t[..n]
    ensures f.opening == f.start + 2
  {
    var r := Updated(t, f, joined);
    QuotedAt(t, f.opening, f.value);
    assert r[f.start] == '=' && r[f.start + 1] == '~' && r[f.start + 2] == '"';
    assert forall i :: 0 <= i < n ==> r[..n][i] == t[..n][i];
    assert forall i :: 0 <= i < n ==> r[i] == t[i];
  }

  lemma UpdatedTail(t: string, f: Place, joined: string, n: nat)
    requires QuotesAt(t, f) && f.opening < n <= |t| && f.opening == f.start + 2
    requires n <= |Updated(t, f, joined)| && Updated(t, f, joined)[..n] == t[..n]
    ensures Updated(t, f, joined)[f.opening + 1..] == joined + "\"" + t[Closing(f) + 1..]
  {
  }

  lemma Rest(t: string, f: Place)
    requires QuotesAt(t, f)
    ensures t[f.opening + 1..] == f.value + "\"" + t[Closing(f) + 1..]
  {
    QuotedAt(t, f.opening, f.value);
    assert t[f.opening + 1..Closing(f)] == f.value;
  }

  /** An update that changes nothing was for the values there were. */
  lemma UpdatedToItself(t: string, m: Place, joined: string)
    requires QuotesAt(t, m) && '"' !in joined && Updated(t, m, joined) == t
    ensures joined == m.value
  {
    OperatorWasThere(t, m, joined, |t|);
    UpdatedTail(t, m, joined, |t|);
    Rest(t, m);
    QuoteSplits(joined, t[Closing(m) + 1..], m.value, t[Closing(m) + 1..]);
  }

  lemma UpdatedParts(t: string, f: Place, m: Place, joined: string)
    requires QuotesAt(t, f) && QuotesAt(t, m) && f.opening < m.at
    ensures Updated(t, m, joined)[f.opening + 1..]
            == t[f.opening + 1..m.start] + "=~" + "\"" + (joined + "\"" + t[Closing(m) + 1..])
  {
  }

  lemma NoQuotesBetween(t: string, f: Place, m: Place)
    requires QuotesAt(t, f) && QuotesAt(t, m) && f.opening < m.at && Closing(f) == m.opening
    ensures '"' !in t[f.opening + 1..m.start] + "=~"
  {
    QuotedAt(t, f.opening, f.value);
    var w := t[f.opening + 1..m.start];
    assert forall i :: 0 <= i < |w| ==> w[i] == t[f.opening + 1 + i];
  }

  /** The found quotation ends where the label's own value begins. */
  lemma ApartInQuotes(t: string, f: Place, m: Place, joined: string)
    requires QuotesAt(t, f) && QuotesAt(t, m) && f.opening < m.at && Closing(f) == m.opening && '"' !in joined
    requires f.opening == f.start + 2
    requires Updated(t, f, joined) == Updated(t, m, joined)
    ensures joined == m.value
  {
    UpdatedStart(t, m, joined);
    UpdatedTail(t, f, joined, m.start);
    UpdatedParts(t, f, m, joined);
    NoQuotesBetween(t, f, m);
    QuoteSplits(joined, t[Closing(f) + 1..], t[f.opening + 1..m.start] + "=~", joined + "\"" + t[Closing(m) + 1..]);
    Rest(t, m);
    QuoteSplits(m.value, t[Closing(m) + 1..], joined, t[Closing(m) + 1..]);
  }

  lemma UpdatedQuotes(t: string, f: Place, joined: string)
    requires QuotesAt(t, f) && f.opening == f.start + 2
    ensures OccursAt(Updated(t, f, joined), InQuotes(joined), f.opening)
  {
    assert Updated(t, f, joined)[f.opening..f.opening + |joined| + 2] == InQuotes(joined);
  }

  lemma UpdatedWithSame(t: string, f: Place, n: nat)
    requires QuotesAt(t, f) && f.opening == f.start + 2 && f.opening < n <= |t|
    requires n <= |Updated(t, f, f.value)| && Updated(t, f, f.value)[..n] == t[..n]
    ensures Updated(t, f, f.value) == t
  {
    var r := Updated(t, f, f.value);
    UpdatedTail(t, f, f.value, n);
    Rest(t, f);
    assert r[..f.opening + 1] == r[..n][..f.opening + 1] == t[..n][..f.opening + 1] == t[..f.opening + 1];
    assert r == r[..f.opening + 1] + r[f.opening + 1..];
    assert t == t[..f.opening + 1] + t[f.opening + 1..];
  }

  /** The found quotation ends before the label's own matcher. */
  lemma ApartBefore(t: string, f: Place, m: Place, joined: string)
    requires QuotesAt(t, f) && QuotesAt(t, m) && f.opening < m.at && Closing(f) < m.at && '"' !in joined
    requires f.opening == f.start + 2
    requires Updated(t, f, joined) == Updated(t, m, joined)
    ensures joined == m.value
  {
    UpdatedStart(t, m, joined);
    UpdatedQuotes(t, f, joined);
    if joined != f.value {
      QuotedDiffer(Updated(t, f, joined), t, f.opening, joined, f.value, m.start);
    } else {
      UpdatedWithSame(t, f, m.start);
      UpdatedToItself(t, m, joined);
    }
  }

  lemma UpdatedSize(t: string, m: Place, joined: string)
    requires QuotesAt(t, m)
    ensures |Updated(t, m, joined)| == m.start + 4 + |joined| + |t| - (Closing(m) + 1)
  {
  }

  /** Updates at two places give different texts, unless they change nothing. */
  lemma UpdatesApart(t: string, f: Place, m: Place, joined: string)
    requires QuotesAt(t, f) && QuotesAt(t, m) && f.at < m.at && f.start - f.at == m.start - m.at
    requires '"' !in joined && Updated(t, f, joined) == Updated(t, m, joined)
    ensures joined == m.value
  {
    PlacesInOrder(t, f, m);
    if f.opening == m.opening {
      UpdatedSize(t, f, joined);
      UpdatedSize(t, m, joined);
      assert false;
    }
    UpdatedStart(t, m, joined);
    OperatorWasThere(t, f, joined, m.start);
    if Closing(f) == m.opening {
      ApartInQuotes(t, f, m, joined);
    } else {
      ApartBefore(t, f, m, joined);
    }
  }

  // ----- other values for a label -------------------------------------------------------------

  lemma NotInFront(t: string, f: Place, m: Place, joined: string, p: nat)
    requires MatcherAt(t, f) && QuotesAt(t, m) && f.at < m.at && f.start - f.at == m.start - m.at
    requires '"' !in joined && joined != m.value
    requires OccursAt(t, InQuotes(f.value), p) && p <= f.opening
    ensures Twice(t, p, |f.value| + 2, InQuotes(joined), f.start, f.opening) != Updated(t, m, joined)
  {
    TwiceExactly(t, f, joined, p);
    if joined == f.value || p == f.opening {
      if Updated(t, f, joined) == Updated(t, m, joined) {
        UpdatesApart(t, f, m, joined);
      }
    } else {
      EarlierEndsBefore(t, f, p);
      TwiceElsewhere(t, p, f.value, joined, f.start, f.opening);
      UpdatedStart(t, m, joined);
      StartsAlike(t, Updated(t, m, joined), m.start, f.start);
    }
  }

  lemma StartsAlike(t: string, r: string, n: nat, k: nat)
    requires k <= n <= |t| && n <= |r| && r[..n] == t[..n]
    ensures r[..k] == t[..k]
  {
    assert r[..k] == r[..n][..k] && t[..k] == t[..n][..k];
  }

  /** What the edit makes of the text, in terms of where it finds the label and the first copy of the value. */
  lemma EditIsTwice(base: string, query: string, t: string, f: Place, lv: LabelValue) returns (p: nat)
    requires FoundAt(t, lv.name, f) && lv.values != [] && NoPattern(Join(lv.values, "|"))
    ensures OccursAt(t, InQuotes(f.value), p) && p <= f.opening
    ensures Edited(base, query, t, lv)
            == Twice(t, p, |f.value| + 2, InQuotes(Join(lv.values, "|")), f.start, f.opening)
  {
    var joined := Join(lv.values, "|");
    MatcherFound(t, f, lv);
    EditRewrites(base, query, t, f.at, f.start, f.opening, Closing(f), lv, InQuotes(f.value), InQuotes(joined));
    IndexIsFirst(t, InQuotes(f.value), 0);
    p := IndexFrom(t, InQuotes(f.value), 0);
    QuotesMakeNoPattern(joined);
    RewrittenIsTwice(t, p, InQuotes(f.value), InQuotes(joined), f.start, f.opening);
  }

  lemma SamePlace(t: string, name: string, f: Place, m: Place)
    requires Finds(t, name, f) && QuotesAt(t, m) && m.start == m.at + |name| && f.at == m.at
    ensures f == m
  {
    PlacesInOrder(t, f, m);
  }

  lemma FoundFirst(t: string, name: string, f: Place, m: Place)
    requires Own(t, name, m) && Finds(t, name, f)
    ensures f.at <= m.at
  {
    IndexIsFirst(t, name, IndexFrom(t, "{", 0));
  }

  lemma MissesItsMatcher(base: string, query: string, t: string, f: Place, m: Place, lv: LabelValue)
    requires FoundAt(t, lv.name, f) && QuotesAt(t, m) && m.start == m.at + |lv.name| && f.at < m.at
    requires lv.values != [] && '"' !in Join(lv.values, "|") && NoPattern(Join(lv.values, "|"))
    requires Join(lv.values, "|") != m.value
    ensures Edited(base, query, t, lv) != Updated(t, m, Join(lv.values, "|"))
  {
    var p := EditIsTwice(base, query, t, f, lv);
    NotInFront(t, f, m, Join(lv.values, "|"), p);
  }

  /**
   Other values for a label go to its own matcher exactly if its name is found there first, and no earlier quoted
   text equals its present value. (If its values stay as they are, finding it first is enough.)
   */
  lemma UpdatesExactly(base: string, query: string, t: string, f: Place, m: Place, lv: LabelValue)
    requires Own(t, lv.name, m) && Finds(t, lv.name, f) && ClosesNoCopy(t, f)
    requires lv.values != [] && '"' !in Join(lv.values, "|") && NoPattern(Join(lv.values, "|"))
    ensures Join(lv.values, "|") != m.value ==>
              (Edited(base, query, t, lv) == Updated(t, m, Join(lv.values, "|"))
               <==> f.at == m.at && forall p :: p < m.opening ==> !OccursAt(t, InQuotes(m.value), p))
    ensures Join(lv.values, "|") == m.value && f.at == m.at ==>
              Edited(base, query, t, lv) == Updated(t, m, Join(lv.values, "|"))
  {
    FoundFirst(t, lv.name, f, m);
    if f.at == m.at {
      SamePlace(t, lv.name, f, m);
      UpdatesWhereFound(base, query, t, m, lv);
    } else if Join(lv.values, "|") != m.value {
      MissesItsMatcher(base, query, t, f, m, lv);
    }
  }

  // ----- removing a label ---------------------------------------------------------------------

  function Without(t: string, b: nat, e: nat): string
    requires b <= e <= |t|
  {
    t[..b] + t[e..]
  }

  /** Taking away either of two stretches is the same. */
  predicate SameCut(t: string, b: nat, e: nat, c: nat, d: nat)
    requires b <= e <= |t| && b <= c <= d <= |t|
  {
    e - b == d - c && t[b..c] == t[e..d]
  }

  lemma CutsCoincide(t: string, b: nat, e: nat, c: nat, d: nat)
    requires b <= e <= |t| && b <= c <= d <= |t|
    ensures Without(t, b, e) == Without(t, c, d) <==> SameCut(t, b, e, c, d)
  {
    var r, s := Without(t, b, e), Without(t, c, d);
    assert |r| == |t| - (e - b) && |s| == |t| - (d - c);
    if e - b == d - c {
      assert e <= d;
      assert s[b..c] == t[b..c] && r[b..c] == t[e..d];
      assert t[e..] == t[e..d] + t[d..] && t[..c] == t[..b] + t[b..c];
    }
  }

  /** Where the text from b to e comes first. */
  function FirstLike(t: string, b: nat, e: nat): (r: nat)
    requires b <= e <= |t|
    ensures r <= b && r + (e - b) <= |t|
    ensures OccursAt(t, t[b..e], r) && forall i :: 0 <= i < r ==> !OccursAt(t, t[b..e], i)
  {
    IndexIsFirst(t, t[b..e], 0);
    assert OccursAt(t, t[b..e], b);
    IndexFrom(t, t[b..e], 0)
  }

  lemma CutsFirstLike(t: string, b: nat, e: nat)
    requires b <= e <= |t|
    ensures Replace(t, t[b..e], "") == Without(t, FirstLike(t, b, e), FirstLike(t, b, e) + (e - b))
  {
    var r := FirstLike(t, b, e);
    FirstExactly(t, t[b..e], r);
    ReplacesAt(t, t[b..e], r, "");
  }

  /** What is removed: the first copy of the stretch around the place where the label is found. */
  lemma RemovesFirstCopy(base: string, query: string, t: string, name: string, f: Place, b: nat, e: nat)
    requires Finds(t, name, f) && b == Begin(t, f) && e == End(t, f)
    ensures b <= e <= |t|
    ensures Edited(base, query, t, LabelValue(name, []))
            == Without(t, FirstLike(t, b, e), FirstLike(t, b, e) + (e - b))
  {
    StretchBounds(t, f);
    StretchIs(t, f);
    CutsFirstLike(t, b, e);
    QuotesAreGiven(t, f);
    EditEmpties(base, query, t, f.at, f.opening, Closing(f), name);
  }

  lemma StretchesInOrder(t: string, name: string, f: Place, m: Place)
    requires Own(t, name, m) && Finds(t, name, f)
    ensures Begin(t, f) <= End(t, f) <= |t|
    ensures Begin(t, f) <= Begin(t, m) <= End(t, m) <= |t|
  {
    StretchBounds(t, f);
    StretchBounds(t, m);
    FoundFirst(t, name, f, m);
    if f.at == m.at {
      SamePlace(t, name, f, m);
    }
  }

  /** The stretch that is removed for f leaves the same text behind as the one of m. */
  ghost predicate LeavesTheSame(t: string, f: Place, m: Place)
    requires Begin(t, f) <= End(t, f) <= |t| && Begin(t, f) <= Begin(t, m) <= End(t, m) <= |t|
  {
    var r := FirstLike(t, Begin(t, f), End(t, f));
    SameCut(t, r, r + (End(t, f) - Begin(t, f)), Begin(t, m), End(t, m))
  }

  /**
   Removing a label takes away its own matcher exactly if the first copy of the stretch that is found is the
   matcher's own stretch, or one that leaves the same text behind.
   */
  lemma RemovesExactly(base: string, query: string, t: string, name: string, f: Place, m: Place)
    requires Own(t, name, m) && Finds(t, name, f)
    ensures Begin(t, f) <= End(t, f) <= |t| && Begin(t, f) <= Begin(t, m) <= End(t, m) <= |t|
    ensures Edited(base, query, t, LabelValue(name, [])) == Without(t, Begin(t, m), End(t, m))
            <==> LeavesTheSame(t, f, m)
  {
    StretchesInOrder(t, name, f, m);
    CutForFound(base, query, t, name, f, Begin(t, f), End(t, f));
    SameIsLeft(t, f, m, Begin(t, f), End(t, f), Begin(t, m), End(t, m));
  }

  /** The text without the stretch that is removed for f. */
  ghost predicate IsCut(left: string, t: string, b: nat, e: nat)
    requires b <= e <= |t|
  {
    left == Without(t, FirstLike(t, b, e), FirstLike(t, b, e) + (e - b))
  }

  lemma CutForFound(base: string, query: string, t: string, name: string, f: Place, b: nat, e: nat)
    requires Finds(t, name, f) && b == Begin(t, f) && e == End(t, f)
    ensures b <= e <= |t| && IsCut(Edited(base, query, t, LabelValue(name, [])), t, b, e)
  {
    RemovesFirstCopy(base, query, t, name, f, b, e);
  }

  lemma SameIsLeft(t: string, f: Place, m: Place, b: nat, e: nat, c: nat, d: nat)
    requires b == Begin(t, f) && e == End(t, f) && c == Begin(t, m) && d == End(t, m)
    requires b <= e <= |t| && b <= c <= d <= |t|
    ensures forall left :: IsCut(left, t, b, e) ==> (left == Without(t, c, d) <==> LeavesTheSame(t, f, m))
  {
    CutsCoincide(t, FirstLike(t, b, e), FirstLike(t, b, e) + (e - b), c, d);
  }

  /** In a tidy query the stretch around the place where the label is found has no earlier copy. */
  lemma FoundStretchIsFirst(t: string, name: string, f: Place)
    requires Finds(t, name, f) && Tidy(t, f)
    ensures Begin(t, f) <= f.at <= f.opening < End(t, f) <= |t|
    ensures FirstLike(t, Begin(t, f), End(t, f)) == Begin(t, f)
  {
    StretchBounds(t, f);
    StretchIsFirst(t, f, name, Begin(t, f), End(t, f));
  }

  /**
   In a tidy query, removing a label takes away its own matcher exactly if its name is found there, or if the
   stretch around the place where it is found leaves the same text behind.
   */
  lemma RemovesInPlace(base: string, query: string, t: string, name: string, f: Place, m: Place)
    requires Own(t, name, m) && Finds(t, name, f) && Tidy(t, f)
    ensures Begin(t, f) <= End(t, f) <= |t| && Begin(t, f) <= Begin(t, m) <= End(t, m) <= |t|
    ensures Edited(base, query, t, LabelValue(name, [])) == Without(t, Begin(t, m), End(t, m))
            <==> f.at == m.at || SameCut(t, Begin(t, f), End(t, f), Begin(t, m), End(t, m))
  {
    RemovesExactly(base, query, t, name, f, m);
    FoundStretchIsFirst(t, name, f);
    SameInPlace(t, f, m);
    if f.at == m.at {
      SamePlace(t, name, f, m);
    }
  }

  lemma SameInPlace(t: string, f: Place, m: Place)
    requires Begin(t, f) <= End(t, f) <= |t| && Begin(t, f) <= Begin(t, m) <= End(t, m) <= |t|
    requires FirstLike(t, Begin(t, f), End(t, f)) == Begin(t, f)
    ensures LeavesTheSame(t, f, m) <==> SameCut(t, Begin(t, f), End(t, f), Begin(t, m), End(t, m))
    ensures f == m ==> LeavesTheSame(t, f, m)
  {
  }

  // ----- a name inside another name -----------------------------------------------------------

  const INNER := "m{ba=" + "\"1\"" + ",a=" + "\"2\"" + "}"

  lemma EqualsIsAnOperator()
    ensures Trim("=") in OPERATORS
  {
    assert OPERATORS[8] == "=";
  }

  lemma InnerPlaces(t: string, f: Place, m: Place)
    requires t == INNER && f == Place(3, 4, 5, "1") && m == Place(9, 10, 11, "2")
    ensures FoundAt(t, "a", f) && Own(t, "a", m) && Tidy(t, f)
  {
    LetterIsFound(t, 3, 'a');
    LetterInQuotes(t, 5, '1');
    LetterInQuotes(t, 11, '2');
    assert t[9] == 'a' && t[10] == '=';
    assert t[9..10] == "a" && t[10..11] == "=";
    EqualsIsAnOperator();
  }

  lemma NoQuoteEarlier(t: string, q: string, k: nat)
    requires k <= |t| && (forall i :: 0 <= i < k ==> t[i] != '"') && q != "" && q[0] == '"'
    ensures forall p :: p < k ==> !OccursAt(t, q, p)
  {
  }

  const INNER_UPDATED := "m{ba=~" + "\"y\"" + ",a=" + "\"2\"" + "}"

  lemma InnerUpdatedText(t: string)
    requires t == INNER
    ensures t[..4] + "=~" + InQuotes("y") + t[8..] == INNER_UPDATED
  {
  }

  lemma InnerUpdated(base: string, query: string, t: string, f: Place, m: Place, lv: LabelValue)
    requires t == INNER && f == Place(3, 4, 5, "1") && m == Place(9, 10, 11, "2")
    requires lv.name == "a" && lv.values == ["y"]
    ensures Edited(base, query, t, lv) == INNER_UPDATED
  {
    InnerPlaces(t, f, m);
    JoinOne(lv.values);
    NoQuoteEarlier(t, InQuotes(f.value), 5);
    UpdatesWhereFound(base, query, t, f, lv);
    InnerUpdatedText(t);
  }

  /** New values for the label `a` go to the label `ba`. */
  lemma OtherLabelIsUpdated(base: string, query: string)
    ensures Own(INNER, "a", Place(9, 10, 11, "2"))
    ensures Edited(base, query, INNER, LabelValue("a", ["y"])) == INNER_UPDATED
  {
    InnerPlaces(INNER, Place(3, 4, 5, "1"), Place(9, 10, 11, "2"));
    InnerUpdated(base, query, INNER, Place(3, 4, 5, "1"), Place(9, 10, 11, "2"), LabelValue("a", ["y"]));
  }

  const INNER_REMOVED := "m{ba=" + "\"2\"" + "}"

  lemma InnerRemovedText(t: string, f: Place)
    requires t == INNER && f == Place(3, 4, 5, "1")
    ensures Begin(t, f) == 3 && End(t, f) == 9 && t[..3] + t[9..] == INNER_REMOVED
  {
    assert t[8] == ',' && t[9] == 'a' && t[2] == 'b';
  }

  lemma InnerRemoved(base: string, query: string, t: string, f: Place, m: Place)
    requires t == INNER && f == Place(3, 4, 5, "1") && m == Place(9, 10, 11, "2")
    ensures Edited(base, query, t, LabelValue("a", [])) == INNER_REMOVED
  {
    InnerPlaces(t, f, m);
    InnerRemovedText(t, f);
    RemovesWhereFound(base, query, t, f, "a");
  }

  /** Removing the label `a` leaves its value to the label `ba`. */
  lemma OtherLabelIsRemoved(base: string, query: string)
    ensures Edited(base, query, INNER, LabelValue("a", [])) == INNER_REMOVED
  {
    InnerRemoved(base, query, INNER, Place(3, 4, 5, "1"), Place(9, 10, 11, "2"));
  }
}
