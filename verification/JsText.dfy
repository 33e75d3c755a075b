/** String operations of JavaScript, as far as the label editor of PromQL queries uses them. */
module JsText {

  predicate OccursAt(s: string, t: string, i: int): (r: bool)
    ensures r && t != "" ==> 0 <= i && i + |t| <= |s| && s[i] == t[0] && s[i + |t| - 1] == t[|t| - 1]
  {
    0 <= i && i + |t| <= |s| && s[i..i + |t|] == t
  }

  /** indexOf: the first occurrence at or after a position, -1 if there is none. */
  function IndexFrom(s: string, t: string, from: nat): (r: int)
    requires from <= |s|
    ensures r == -1 || from <= r <= r + |t| <= |s|
    decreases |s| - from
  {
    if OccursAt(s, t, from) then from else if from == |s| then -1 else IndexFrom(s, t, from + 1)
  }

  function Clamped(i: int, s: string): (r: int)
    ensures 0 <= r <= |s|
  {
    if i < 0 then 0 else if i > |s| then |s| else i
  }

  /** substring: bounds are clamped, and swapped if need be. */
  function Substring(s: string, i: int, j: int): string {
    var a, b := Clamped(i, s), Clamped(j, s);
    if a <= b then s[a..b] else s[b..a]
  }

  /** A bound of slice: a negative one counts from the end. */
  function SliceBound(k: int, s: string): (r: int)
    ensures 0 <= r <= |s|
  {
    Clamped(if k < 0 then |s| + k else k, s)
  }

  predicate IsAt(s: string, i: int, c: char) {
    0 <= i < |s| && s[i] == c
  }

  function Join(parts: seq<string>, sep: string): string {
    if parts == [] then "" else if |parts| == 1 then parts[0] else parts[0] + sep + Join(parts[1..], sep)
  }

  /** split: an empty separator yields the single characters. */
  function Split(s: string, sep: string): seq<string>
    decreases |s|
  {
    if sep == "" then seq(|s|, i requires 0 <= i < |s| => [s[i]])
    else
      var at := IndexFrom(s, sep, 0);
      if at == -1 then [s] else [s[..at]] + Split(s[at + |sep|..], sep)
  }

  /** A replacement text with its $-patterns expanded. */
  function Expanded(subst: string, matched: string, before: string, after: string): string {
    if subst == "" then ""
    else if |subst| == 1 || subst[0] != '$' then [subst[0]] + Expanded(subst[1..], matched, before, after)
    else if subst[1] == '$' then "$" + Expanded(subst[2..], matched, before, after)
    else if subst[1] == '&' then matched + Expanded(subst[2..], matched, before, after)
    else if subst[1] == '`' then before + Expanded(subst[2..], matched, before, after)
    else if subst[1] == '\'' then after + Expanded(subst[2..], matched, before, after)
    else "$" + Expanded(subst[1..], matched, before, after)
  }

  /** replace with a string pattern: the first occurrence only. */
  function Replace(s: string, pattern: string, subst: string): string {
    var at := IndexFrom(s, pattern, 0);
    if at == -1 then s
    else
      var after := s[at + |pattern|..];
      s[..at] + Expanded(subst, pattern, s[..at], after) + after
  }

  /** No $-pattern in it: no '$' in front of '$', '&', a backtick or an apostrophe. */
  predicate NoPattern(subst: string) {
    forall i :: 0 <= i < |subst| - 1 ==> !(subst[i] == '$' && subst[i + 1] in "$&`'")
  }

  predicate EndsLine(c: char) {
    c in "\n\r\U{2028}\U{2029}"
  }

  predicate IsSpace(c: char) {
    EndsLine(c) || c in "\t\U{0B}\U{0C} \U{A0}\U{1680}\U{202F}\U{205F}\U{3000}\U{FEFF}"
    || '\U{2000}' <= c <= '\U{200A}'
  }

  function TrimStart(s: string): string {
    if s != "" && IsSpace(s[0]) then TrimStart(s[1..]) else s
  }

  function TrimEnd(s: string): string {
    if s != "" && IsSpace(s[|s| - 1]) then TrimEnd(s[..|s| - 1]) else s
  }

  function Trim(s: string): string {
    TrimEnd(TrimStart(s))
  }

  /** Where the closing character comes on the same line, from position j on; |s| if it does not. */
  function CloseAt(s: string, close: char, j: nat): (r: nat)
    requires j <= |s|
    ensures j <= r <= |s| && (r < |s| ==> s[r] == close)
    decreases |s| - j
  {
    if j == |s| || s[j] == close then j else if EndsLine(s[j]) then |s| else CloseAt(s, close, j + 1)
  }

  /** The first match of the expression open(.*?)close, "" if there is none. */
  function Between(s: string, open: char, close: char): string {
    if s == "" then ""
    else if s[0] == open && CloseAt(s, close, 1) < |s| then s[..CloseAt(s, close, 1) + 1]
    else Between(s[1..], open, close)
  }

  // ----- facts --------------------------------------------------------------------------------

  lemma {:induction false} IndexIsFirst(s: string, t: string, from: nat)
    requires from <= |s|
    ensures var r := IndexFrom(s, t, from);
            && (r == -1 ==> forall i :: from <= i ==> !OccursAt(s, t, i))
            && (r != -1 ==> OccursAt(s, t, r) && forall i :: from <= i < r ==> !OccursAt(s, t, i))
    decreases |s| - from
  {
    if !OccursAt(s, t, from) && from < |s| {
      IndexIsFirst(s, t, from + 1);
    }
  }

  lemma {:induction false} NothingToExpand(subst: string, matched: string, before: string, after: string)
    requires NoPattern(subst)
    ensures Expanded(subst, matched, before, after) == subst
  {
    if subst != "" {
      assert |subst| > 1 && subst[0] == '$' ==> subst[1] !in "$&`'";
      var more := subst[1..];
      forall i | 0 <= i < |more| - 1
        ensures !(more[i] == '$' && more[i + 1] in "$&`'")
      {
        assert more[i] == subst[i + 1] && more[i + 1] == subst[i + 1 + 1];
      }
      NothingToExpand(subst[1..], matched, before, after);
      assert subst == [subst[0]] + subst[1..];
    }
  }

  lemma CharIndex(s: string, c: char, from: nat, k: nat)
    requires from <= k < |s| && s[k] == c && forall i :: from <= i < k ==> s[i] != c
    ensures IndexFrom(s, [c], from) == k
  {
    IndexIsFirst(s, [c], from);
    assert OccursAt(s, [c], k);
  }

  lemma NoCharIndex(s: string, c: char, from: nat)
    requires from <= |s| && forall i :: from <= i < |s| ==> s[i] != c
    ensures IndexFrom(s, [c], from) == -1
  {
    IndexIsFirst(s, [c], from);
  }

  /** Splitting at the first separator. */
  lemma SplitFirst(head: string, sep: string, rest: string)
    requires sep != "" && sep[0] !in head
    ensures Split(head + sep + rest, sep) == [head] + Split(rest, sep)
  {
    var s := head + sep + rest;
    IndexIsFirst(s, sep, 0);
    assert OccursAt(s, sep, |head|);
    assert forall i :: 0 <= i < |head| ==> s[i] == head[i];
    assert IndexFrom(s, sep, 0) == |head|;
    assert s[..|head|] == head && s[|head| + |sep|..] == rest;
  }

  lemma SplitNone(s: string, sep: string)
    requires sep != "" && sep[0] !in s
    ensures Split(s, sep) == [s]
  {
    IndexIsFirst(s, sep, 0);
  }

  /** Splitting undoes joining, except that no part at all comes back as one empty part. */
  lemma {:induction false} SplitJoin(parts: seq<string>, sep: char)
    requires forall p :: p in parts ==> sep !in p
    ensures Split(Join(parts, [sep]), [sep]) == if parts == [] then [""] else parts
  {
    if |parts| <= 1 {
      SplitNone(Join(parts, [sep]), [sep]);
    } else {
      SplitFirst(parts[0], [sep], Join(parts[1..], [sep]));
      SplitJoin(parts[1..], sep);
    }
  }

  lemma {:induction false} AllInJoin(parts: seq<string>, sep: string, ok: char -> bool)
    requires forall c :: c in sep ==> ok(c)
    requires forall p :: p in parts ==> forall c :: c in p ==> ok(c)
    ensures forall c :: c in Join(parts, sep) ==> ok(c)
  {
    if |parts| == 1 {
      assert parts[0] in parts;
    } else if |parts| > 1 {
      assert parts[0] in parts;
      assert forall p :: p in parts[1..] ==> p in parts;
      AllInJoin(parts[1..], sep, ok);
    }
  }

  lemma {:induction false} TrimEndKeeps(a: string, b: string)
    requires a != "" && !IsSpace(a[|a| - 1])
    ensures TrimEnd(a + b) == a + TrimEnd(b) && TrimEnd(b) <= b
  {
    if b == "" {
      assert a + b == a;
    } else if IsSpace(b[|b| - 1]) {
      assert (a + b)[..|a + b| - 1] == a + b[..|b| - 1];
      TrimEndKeeps(a, b[..|b| - 1]);
    }
  }

  lemma {:induction false} ClosesAt(s: string, close: char, j: nat, k: nat)
    requires j <= k < |s| && s[k] == close
    requires forall i :: j <= i < k ==> s[i] != close && !EndsLine(s[i])
    ensures CloseAt(s, close, j) == k
    decreases k - j
  {
    if j < k {
      ClosesAt(s, close, j + 1, k);
    }
  }

  lemma {:induction false} BetweenIs(p: string, open: char, body: string, close: char, rest: string)
    requires open !in p && close !in body && forall c :: c in body ==> !EndsLine(c)
    ensures Between(p + [open] + body + [close] + rest, open, close) == [open] + body + [close]
  {
    var s := p + [open] + body + [close] + rest;
    if p == "" {
      ClosesAt(s, close, 1, |body| + 1);
      assert s[..|body| + 2] == [open] + body + [close];
    } else {
      assert s[1..] == p[1..] + [open] + body + [close] + rest;
      BetweenIs(p[1..], open, body, close, rest);
    }
  }

  lemma {:induction false} BetweenNone(s: string, open: char, close: char)
    requires open !in s
    ensures Between(s, open, close) == ""
  {
    if s != "" {
      BetweenNone(s[1..], open, close);
    }
  }
}
