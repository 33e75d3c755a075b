/** String operations of the Go and JavaScript libraries that several modules rely on. */
module Text {
  import opened Prelude

  // ----- letters and digits -------------------------------------------------------------------

  /** Lower case, as far as comparing with ASCII words needs it: beside A-Z, U+0130 and U+212A also become ASCII. */
  function LowerChar(c: char): char
  {
    if 'A' <= c <= 'Z' then c - 'A' + 'a'
    else if c == '\U{0130}' then 'i'
    else if c == '\U{212A}' then 'k'
    else c
  }

  function ToLower(s: string): (r: string)
    ensures |r| == |s|
    ensures forall i :: 0 <= i < |s| ==> r[i] == LowerChar(s[i])
  {
    if s == [] then [] else [LowerChar(s[0])] + ToLower(s[1..])
  }

  function Decimal(n: nat): (r: string)
    ensures r != ""
  {
    var digit := ['0' + (n % 10) as char];
    if n < 10 then digit else Decimal(n / 10) + digit
  }

  function FormatInt(n: int): string
  {
    if n < 0 then "-" + Decimal(-n) else Decimal(n)
  }

  /** The text without any occurrence of c. */
  function RemoveChar(s: string, c: char): (r: string)
    ensures c !in r
    ensures c !in s ==> r == s
  {
    if s == [] then []
    else if s[0] == c then RemoveChar(s[1..], c)
    else [s[0]] + RemoveChar(s[1..], c)
  }

  /** The number that decimal digits stand for. */
  function ValueOf(digits: string): int {
    if digits == "" then 0 else ValueOf(Front(digits)) * 10 + (Last(digits) as int - '0' as int)
  }

  /** The digits of a number, without leading zeros, stand for it. */
  lemma {:induction false} DecimalExactly(n: nat)
    ensures ValueOf(Decimal(n)) == n
    ensures forall i :: 0 <= i < |Decimal(n)| ==> '0' <= Decimal(n)[i] <= '9'
    ensures Decimal(n)[0] == '0' <==> n == 0
  {
    var digit := ['0' + (n % 10) as char];
    if n < 10 {
      assert Front(digit) == "" && ValueOf("") == 0;
    } else {
      DecimalExactly(n / 10);
      assert Front(Decimal(n / 10) + digit) == Decimal(n / 10);
    }
  }

  /** A letter of a word in lower case, or its capital; for i and k there is one more character each. */
  predicate LetterOf(c: char, letter: char) {
    c == letter || (c as int == letter as int - 32) || (letter == 'i' && c == '\U{0130}')
    || (letter == 'k' && c == '\U{212A}')
  }

  lemma LowerLetter(c: char, letter: char)
    requires 'a' <= letter <= 'z'
    ensures LowerChar(c) == letter <==> LetterOf(c, letter)
  {
  }

  /** Which texts compare as a word in lower case. */
  lemma LowerExactly(s: string, word: string)
    requires forall i :: 0 <= i < |word| ==> 'a' <= word[i] <= 'z'
    ensures ToLower(s) == word <==> |s| == |word| && forall i :: 0 <= i < |s| ==> LetterOf(s[i], word[i])
  {
    if |s| == |word| {
      forall i | 0 <= i < |s|
        ensures ToLower(s)[i] == word[i] <==> LetterOf(s[i], word[i])
      {
        LowerLetter(s[i], word[i]);
      }
    }
  }

  /** Removing goes on behind each occurrence. */
  lemma {:induction false} RemoveCharParts(a: string, c: char, b: string)
    requires c !in a
    ensures RemoveChar(a + [c] + b, c) == a + RemoveChar(b, c)
  {
    var s := a + [c] + b;
    if a == "" {
      assert s[1..] == b;
    } else {
      assert s[1..] == a[1..] + [c] + b;
      RemoveCharParts(a[1..], c, b);
      assert s[0] == a[0];
      assert a + RemoveChar(b, c) == [a[0]] + (a[1..] + RemoveChar(b, c));
    }
  }

  // ----- replacing ----------------------------------------------------------------------------

  /** Every occurrence of a non-empty pattern replaced, from left to right and without overlaps. */
  function ReplaceAll(s: string, pattern: string, subst: string): string
    requires pattern != ""
  {
    if s == "" then ""
    else if pattern <= s then subst + ReplaceAll(s[|pattern|..], pattern, subst)
    else [s[0]] + ReplaceAll(s[1..], pattern, subst)
  }

  predicate Contains(s: string, pattern: string) {
    exists i :: 0 <= i <= |s| && pattern <= s[i..]
  }
}
