/** Reading `key="value",` pairs out of a text in which spaces separate pairs, except between quotes. */
module QuotedPairs {
  import opened Prelude

  const NO_QUOTE := '\0'

  /** The white space of Unicode. */
  predicate IsSpace(c: char) {
    '\t' <= c <= '\r' || c == ' ' || c == '\U{85}' || c == '\U{A0}' || c == '\U{1680}'
    || '\U{2000}' <= c <= '\U{200A}' || c == '\U{2028}' || c == '\U{2029}' || c == '\U{202F}'
    || c == '\U{205F}' || c == '\U{3000}'
  }

  /** The quotation marks of Unicode. */
  predicate IsQuotationMark(c: char) {
    c == '"' || c == '\'' || c == '\U{AB}' || c == '\U{BB}' || '\U{2018}' <= c <= '\U{201F}' || c == '\U{2039}'
    || c == '\U{203A}' || c == '\U{2E42}' || '\U{300C}' <= c <= '\U{300F}' || '\U{301D}' <= c <= '\U{301F}'
    || '\U{FE41}' <= c <= '\U{FE44}' || c == '\U{FF02}' || c == '\U{FF07}' || '\U{FF62}' <= c <= '\U{FF63}'
  }

  /** Whether c separates fields, and the quotation mark that is open afterwards. */
  function Separates(lastQuote: char, c: char): (bool, char) {
    if c == lastQuote then (false, NO_QUOTE)
    else if lastQuote != NO_QUOTE then (false, lastQuote)
    else if IsQuotationMark(c) then (false, c)
    else (IsSpace(c), lastQuote)
  }

  function Flushed(current: string): seq<string> {
    if current == "" then [] else [current]
  }

  /** The fields of the rest of a text, the current one having begun with `current`. */
  function Fields(s: string, lastQuote: char, current: string): seq<string>
    decreases |s|
  {
    if s == "" then Flushed(current)
    else
      var (separator, quote) := Separates(lastQuote, s[0]);
      if separator then Flushed(current) + Fields(s[1..], quote, "")
      else Fields(s[1..], quote, current + [s[0]])
  }

  function SplitAtEquals(s: string): (parts: seq<string>)
    ensures parts != []
  {
    if s == "" then [""]
    else
      var rest := SplitAtEquals(s[1..]);
      if s[0] == '=' then [""] + rest else [[s[0]] + rest[0]] + rest[1..]
  }

  /** Key and value of an item; None where the program panics for lack of an '=' or of a value in quotes. */
  function ParseItem(item: string): Option<(string, string)> {
    var x := SplitAtEquals(item);
    if |x| < 2 || |x[1]| < 3 then None else Some((x[0], x[1][1..|x[1]| - 2]))
  }

  function Collected(items: seq<string>): Option<map<string, string>> {
    if items == [] then Some(map[])
    else
      var m, kv := Collected(Front(items)), ParseItem(Last(items));
      if m.None? || kv.None? then None else Some(m.value[kv.value.0 := kv.value.1])
  }

  method FieldsFunc(s: string) returns (items: seq<string>)
    ensures items == Fields(s, NO_QUOTE, "")
  {
    var lastQuote := NO_QUOTE;
    var current := "";
    items := [];
    var i := 0;
    while i < |s|
      invariant 0 <= i <= |s|
      invariant items + Fields(s[i..], lastQuote, current) == Fields(s, NO_QUOTE, "")
    {
      var c := s[i];
      ghost var rest := s[i..];
      assert rest[0] == c && rest[1..] == s[i + 1..];
      var (separator, quote) := Separates(lastQuote, c);
      if separator {
        items := items + Flushed(current);
        current := "";
      } else {
        current := current + [c];
      }
      lastQuote := quote;
      i := i + 1;
    }
    items := items + Flushed(current);
  }

  method GetKeyValueMapFromQuotedString(quotedString: string) returns (m: Option<map<string, string>>)
    ensures m == Collected(Fields(quotedString, NO_QUOTE, ""))
  {
    var items := FieldsFunc(quotedString);
    var filled: map<string, string> := map[];
    var i := 0;
    while i < |items|
      invariant 0 <= i <= |items|
      invariant Collected(items[..i]) == Some(filled)
    {
      assert Front(items[..i + 1]) == items[..i] && Last(items[..i + 1]) == items[i];
      var x := SplitAtEquals(items[i]);
      if |x| < 2 || |x[1]| < 3 {
        CollectedFails(items, i + 1);
        return None;
      }
      filled := filled[x[0] := x[1][1..|x[1]| - 2]];
      i := i + 1;
    }
    assert items[..i] == items;
    m := Some(filled);
  }

  lemma {:induction false} CollectedFails(items: seq<string>, n: nat)
    requires n <= |items| && Collected(items[..n]).None?
    ensures Collected(items).None?
    decreases |items|
  {
    if n == |items| {
      assert items[..n] == items;
    } else {
      assert Front(items)[..n] == items[..n];
      CollectedFails(Front(items), n);
    }
  }

  // ----- reading back what was printed ----------------------------------------------------------

  /** A pair, and the white space printed after it. */
  datatype Pair = Pair(key: string, value: string, gap: string)

  ghost predicate PrintableKey(key: string) {
    forall i :: 0 <= i < |key| ==> !IsSpace(key[i]) && !IsQuotationMark(key[i]) && key[i] != '='
  }

  ghost predicate PrintableValue(value: string) {
    forall i :: 0 <= i < |value| ==> value[i] != '"' && value[i] != '='
  }

  /** Keys and values can be printed, and white space stands between any two pairs. */
  ghost predicate WellPrinted(pairs: seq<Pair>) {
    forall i :: 0 <= i < |pairs| ==>
      && PrintableKey(pairs[i].key) && PrintableValue(pairs[i].value)
      && (forall j :: 0 <= j < |pairs[i].gap| ==> IsSpace(pairs[i].gap[j]))
      && (i < |pairs| - 1 ==> pairs[i].gap != "")
  }

  function Item(p: Pair): string {
    p.key + "=\"" + p.value + "\","
  }

  function Printed(pairs: seq<Pair>): string {
    if pairs == [] then "" else Item(pairs[0]) + pairs[0].gap + Printed(pairs[1..])
  }

  function Items(pairs: seq<Pair>): (r: seq<string>)
    ensures |r| == |pairs| && forall i :: 0 <= i < |r| ==> r[i] == Item(pairs[i])
  {
    seq(|pairs|, i requires 0 <= i < |pairs| => Item(pairs[i]))
  }

  /** The map the pairs stand for; the last of several pairs with one key counts. */
  function MapOf(pairs: seq<Pair>): map<string, string> {
    if pairs == [] then map[] else MapOf(Front(pairs))[Last(pairs).key := Last(pairs).value]
  }

  /** No character of t separates, and the open quotation mark stays as it is. */
  ghost predicate Passes(t: string, lastQuote: char) {
    forall i :: 0 <= i < |t| ==> Separates(lastQuote, t[i]) == (false, lastQuote)
  }

  lemma {:induction false} PassText(t: string, rest: string, lastQuote: char, current: string)
    requires Passes(t, lastQuote)
    ensures Fields(t + rest, lastQuote, current) == Fields(rest, lastQuote, current + t)
    decreases |t|
  {
    if t == "" {
      assert t + rest == rest && current + t == current;
    } else {
      assert (t + rest)[1..] == t[1..] + rest;
      PassText(t[1..], rest, lastQuote, current + [t[0]]);
      assert current + [t[0]] + t[1..] == current + t;
    }
  }

  lemma PassQuote(rest: string, lastQuote: char, current: string)
    requires lastQuote == NO_QUOTE || lastQuote == '"'
    ensures Fields(['"'] + rest, lastQuote, current)
            == Fields(rest, if lastQuote == '"' then NO_QUOTE else '"', current + ['"'])
  {
    assert (['"'] + rest)[1..] == rest;
  }

  lemma CharPasses(c: char)
    requires !IsSpace(c) && !IsQuotationMark(c)
    ensures Separates(NO_QUOTE, c) == (false, NO_QUOTE)
  {
  }

  lemma KeyPasses(key: string)
    requires PrintableKey(key)
    ensures Passes(key + "=", NO_QUOTE)
  {
    var t := key + "=";
    forall i | 0 <= i < |t|
      ensures Separates(NO_QUOTE, t[i]) == (false, NO_QUOTE)
    {
      CharPasses(t[i]);
    }
  }

  lemma ValuePasses(value: string)
    requires PrintableValue(value)
    ensures Passes(value, '"')
  {
  }

  /** From the opening quote on. */
  lemma PassQuoted(value: string, rest: string, current: string)
    requires PrintableValue(value)
    ensures Fields(['"'] + (value + (['"'] + rest)), NO_QUOTE, current)
            == Fields(rest, NO_QUOTE, current + ['"'] + value + ['"'])
  {
    PassQuote(value + (['"'] + rest), NO_QUOTE, current);
    ValuePasses(value);
    PassText(value, ['"'] + rest, '"', current + ['"']);
    PassQuote(rest, '"', current + ['"'] + value);
  }

  lemma PassItem(p: Pair, rest: string)
    requires PrintableKey(p.key) && PrintableValue(p.value)
    ensures Fields(Item(p) + rest, NO_QUOTE, "") == Fields(rest, NO_QUOTE, Item(p))
  {
    var comma := "," + rest;
    ItemInParts(p, rest);
    PassKey(p.key, ['"'] + (p.value + (['"'] + comma)));
    PassQuoted(p.value, comma, p.key + "=");
    PassComma(rest, p.key + "=" + ['"'] + p.value + ['"']);
  }

  lemma ItemInParts(p: Pair, rest: string)
    ensures Item(p) + rest == p.key + "=" + (['"'] + (p.value + (['"'] + ("," + rest))))
    ensures Item(p) == p.key + "=" + ['"'] + p.value + ['"'] + ","
  {
  }

  lemma PassKey(key: string, rest: string)
    requires PrintableKey(key)
    ensures Fields(key + "=" + rest, NO_QUOTE, "") == Fields(rest, NO_QUOTE, key + "=")
  {
    KeyPasses(key);
    PassText(key + "=", rest, NO_QUOTE, "");
    assert "" + (key + "=") == key + "=";
  }

  lemma PassComma(rest: string, current: string)
    ensures Fields("," + rest, NO_QUOTE, current) == Fields(rest, NO_QUOTE, current + ",")
  {
    CharPasses(',');
    PassText(",", rest, NO_QUOTE, current);
  }

  lemma {:induction false} PassGap(gap: string, rest: string, current: string)
    requires forall j :: 0 <= j < |gap| ==> IsSpace(gap[j])
    ensures Fields(gap + rest, NO_QUOTE, current)
            == if gap == "" then Fields(rest, NO_QUOTE, current) else Flushed(current) + Fields(rest, NO_QUOTE, "")
    decreases |gap|
  {
    if gap == "" {
      assert gap + rest == rest;
    } else {
      assert (gap + rest)[1..] == gap[1..] + rest;
      SpaceIsNoQuote(gap[0]);
      PassGap(gap[1..], rest, "");
      assert Flushed("") + Fields(rest, NO_QUOTE, "") == Fields(rest, NO_QUOTE, "");
    }
  }

  lemma SpaceIsNoQuote(c: char)
    requires IsSpace(c)
    ensures !IsQuotationMark(c) && c != NO_QUOTE
  {
  }

  /** The fields of a printed list are its items. */
  lemma {:induction false} FieldsOfPrinted(pairs: seq<Pair>)
    requires WellPrinted(pairs)
    ensures Fields(Printed(pairs), NO_QUOTE, "") == Items(pairs)
  {
    if pairs != [] {
      var p, rest := pairs[0], Printed(pairs[1..]);
      FieldsOfPrinted(pairs[1..]);
      assert Printed(pairs) == Item(p) + (p.gap + rest);
      assert pairs[1..] == [] ==> rest == "";
      PassItemAndGap(p, rest);
      assert Items(pairs) == [Item(p)] + Items(pairs[1..]);
    }
  }

  lemma PassItemAndGap(p: Pair, rest: string)
    requires PrintableKey(p.key) && PrintableValue(p.value) && forall j :: 0 <= j < |p.gap| ==> IsSpace(p.gap[j])
    requires p.gap == "" ==> rest == ""
    ensures Fields(Item(p) + (p.gap + rest), NO_QUOTE, "") == [Item(p)] + Fields(rest, NO_QUOTE, "")
  {
    PassItem(p, p.gap + rest);
    PassGap(p.gap, rest, Item(p));
    assert |Item(p)| >= 4;
  }

  lemma {:induction false} SplitWithout(s: string)
    requires forall i :: 0 <= i < |s| ==> s[i] != '='
    ensures SplitAtEquals(s) == [s]
  {
    if s != "" {
      SplitWithout(s[1..]);
      assert [s[0]] + s[1..] == s;
    }
  }

  lemma {:induction false} SplitOnce(k: string, v: string)
    requires forall i :: 0 <= i < |k| ==> k[i] != '='
    requires forall i :: 0 <= i < |v| ==> v[i] != '='
    ensures SplitAtEquals(k + "=" + v) == [k, v]
  {
    var s := k + "=" + v;
    if k == "" {
      assert s[1..] == v;
      SplitWithout(v);
    } else {
      assert s[1..] == k[1..] + "=" + v;
      SplitOnce(k[1..], v);
      assert [k[0]] + k[1..] == k;
    }
  }

  lemma ItemParses(p: Pair)
    requires PrintableKey(p.key) && PrintableValue(p.value)
    ensures ParseItem(Item(p)) == Some((p.key, p.value))
  {
    var v := "\"" + p.value + "\",";
    assert Item(p) == p.key + "=" + v;
    SplitOnce(p.key, v);
    assert v[1..|v| - 2] == p.value;
  }

  lemma {:induction false} ItemsCollect(pairs: seq<Pair>)
    requires forall i :: 0 <= i < |pairs| ==> PrintableKey(pairs[i].key) && PrintableValue(pairs[i].value)
    ensures Collected(Items(pairs)) == Some(MapOf(pairs))
    decreases |pairs|
  {
    if pairs != [] {
      ItemsCollect(Front(pairs));
      assert Front(Items(pairs)) == Items(Front(pairs));
      ItemParses(Last(pairs));
    }
  }

  /** Reading a printed list gives back exactly the map it was printed from. */
  lemma ReadsBackWhatWasPrinted(pairs: seq<Pair>)
    requires WellPrinted(pairs)
    ensures Collected(Fields(Printed(pairs), NO_QUOTE, "")) == Some(MapOf(pairs))
  {
    FieldsOfPrinted(pairs);
    ItemsCollect(pairs);
  }

  /** With distinct keys, the map holds each pair and nothing else. */
  lemma {:induction false} MapOfDistinct(pairs: seq<Pair>)
    requires forall i, j :: 0 <= i < j < |pairs| ==> pairs[i].key != pairs[j].key
    ensures forall i :: 0 <= i < |pairs| ==>
              pairs[i].key in MapOf(pairs) && MapOf(pairs)[pairs[i].key] == pairs[i].value
    ensures forall k :: k in MapOf(pairs) ==> exists i :: 0 <= i < |pairs| && pairs[i].key == k
    decreases |pairs|
  {
    if pairs != [] {
      MapOfDistinct(Front(pairs));
      forall k | k in MapOf(pairs)
        ensures exists i :: 0 <= i < |pairs| && pairs[i].key == k
      {
        if k != Last(pairs).key {
          var i :| 0 <= i < |Front(pairs)| && Front(pairs)[i].key == k;
          assert pairs[i].key == k;
        } else {
          assert pairs[|pairs| - 1].key == k;
        }
      }
    }
  }

  // ----- single items, and printable text -----------------------------------------------------

  /** What is made of an item: its value is what is between the first '=' and the next, without two characters. */
  lemma ItemExactly(key: string, value: string, more: string)
    requires '=' !in key && '=' !in value && (more == "" || more[0] == '=')
    ensures ParseItem(key + "=" + value + more)
            == if |value| < 3 then None else Some((key, value[1..|value| - 2]))
  {
    if more == "" {
      assert key + "=" + value + more == key + "=" + value;
      SplitOnce(key, value);
    } else {
      var rest := more[1..];
      assert key + "=" + value + more == key + "=" + (value + "=" + rest);
      SplitAtFirst(key, value + "=" + rest);
      SplitAtFirst(value, rest);
    }
  }

  lemma {:induction false} SplitAtFirst(k: string, rest: string)
    requires '=' !in k
    ensures SplitAtEquals(k + "=" + rest) == [k] + SplitAtEquals(rest)
  {
    var s := k + "=" + rest;
    if k == "" {
      assert s[1..] == rest;
    } else {
      assert s[1..] == k[1..] + "=" + rest;
      SplitAtFirst(k[1..], rest);
      assert [k[0]] + k[1..] == k;
    }
  }

  lemma WithoutEquals(item: string)
    requires '=' !in item
    ensures ParseItem(item) == None
  {
    SplitWithout(item);
  }

  /** Keys and values of printable ASCII, with blanks or line ends between the pairs. */
  ghost predicate PlainlyPrinted(pairs: seq<Pair>) {
    forall i :: 0 <= i < |pairs| ==>
      && (forall c :: c in pairs[i].key ==> '!' <= c <= '~' && c != '"' && c != '\'' && c != '=')
      && (forall c :: c in pairs[i].value ==> ' ' <= c <= '~' && c != '"' && c != '=')
      && (forall c :: c in pairs[i].gap ==> c == ' ' || c == '\t' || c == '\n' || c == '\r')
      && (i < |pairs| - 1 ==> pairs[i].gap != "")
  }

  lemma PlainIsWellPrinted(pairs: seq<Pair>)
    requires PlainlyPrinted(pairs)
    ensures WellPrinted(pairs)
  {
    forall i | 0 <= i < |pairs|
      ensures PrintableKey(pairs[i].key) && PrintableValue(pairs[i].value)
      ensures forall j :: 0 <= j < |pairs[i].gap| ==> IsSpace(pairs[i].gap[j])
    {
      PlainPair(pairs, i);
    }
  }

  /** The map has the keys of the pairs, each with its value. */
  ghost predicate MapsPairs(m: map<string, string>, pairs: seq<Pair>) {
    && (forall i :: 0 <= i < |pairs| ==> pairs[i].key in m && m[pairs[i].key] == pairs[i].value)
    && forall k :: k in m ==> exists i :: 0 <= i < |pairs| && pairs[i].key == k
  }

  /** A list of pairs with different keys, printed plainly, is read as the map of these pairs. */
  lemma PlainListIsRead(pairs: seq<Pair>)
    requires PlainlyPrinted(pairs) && forall i, j :: 0 <= i < j < |pairs| ==> pairs[i].key != pairs[j].key
    ensures Collected(Fields(Printed(pairs), NO_QUOTE, "")).Some?
    ensures MapsPairs(Collected(Fields(Printed(pairs), NO_QUOTE, "")).value, pairs)
  {
    PlainIsWellPrinted(pairs);
    ReadsBackWhatWasPrinted(pairs);
    MapOfDistinct(pairs);
  }

  lemma PlainPair(pairs: seq<Pair>, i: nat)
    requires PlainlyPrinted(pairs) && i < |pairs|
    ensures PrintableKey(pairs[i].key) && PrintableValue(pairs[i].value)
    ensures forall j :: 0 <= j < |pairs[i].gap| ==> IsSpace(pairs[i].gap[j])
  {
    var p := pairs[i];
    assert forall j :: 0 <= j < |p.key| ==> p.key[j] in p.key;
    assert forall j :: 0 <= j < |p.value| ==> p.value[j] in p.value;
    assert forall j :: 0 <= j < |p.gap| ==> p.gap[j] in p.gap;
  }
}
