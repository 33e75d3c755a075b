/** When a change of a watched resource satisfies a policy: the condition evaluator of the event tracker. */
module Conditions {
  import opened Prelude

  /** Values a key can select. */
  datatype Value = Null | Bool(b: bool) | Number(n: real) | Text(s: string) | List(items: seq<Value>)
                 | Object(fields: map<string, Value>)

  /** Go cannot compare two lists or two objects; values of different kinds it finds unequal. */
  predicate Incomparable(a: Value, b: Value) {
    (a.List? && b.List?) || (a.Object? && b.Object?)
  }

  /** The outcome of looking a key up. */
  type Lookup = Option<Value>

  /** A condition with what its key selects in the new and in the old resource. */
  datatype Condition = Condition(operator: string, value: Option<string>, newer: Lookup, older: Lookup)

  /** How a value is printed for comparison. */
  type Format = Value -> string

  predicate Less(a: string, b: string) {
    b != [] && (a == [] || a[0] < b[0] || (a[0] == b[0] && Less(a[1..], b[1..])))
  }

  predicate Cases(key: string, value: string, operator: string) {
    if operator == "EqualTo" then key == value
    else if operator == "NotEqualTo" then key != value
    else if operator == "LessThan" then Less(key, value)
    else if operator == "GreaterThan" then Less(value, key)
    else if operator == "GreaterThanEqualTo" then key == value || Less(value, key)
    else if operator == "LessThanEqualTo" then key == value || Less(key, value)
    else false
  }

  /** A failed lookup of the new value counts as null in the "or" loop, which only logs it. */
  function NewValue(c: Condition): Value {
    if c.newer.Some? then c.newer.value else Null
  }

  predicate Changed(c: Condition) {
    c.older.Some? && !Incomparable(NewValue(c), c.older.value) && NewValue(c) != c.older.value
  }

  predicate Passes(c: Condition, format: Format) {
    c.value.Some? && Cases(format(NewValue(c)), c.value.value, c.operator)
  }

  /** Evaluating the condition panics: its values cannot be compared, or its text is needed and there is none. */
  predicate Crashes(c: Condition) {
    || (c.older.Some? && Incomparable(NewValue(c), c.older.value))
    || (Changed(c) && c.operator != "Change" && c.value.None?)
  }

  predicate LookupsSucceed(c: Condition) {
    c.newer.Some? && c.older.Some?
  }

  predicate Wanted(c: Condition, format: Format) {
    Changed(c) && (c.operator == "Change" || Passes(c, format))
  }

  /** "and": nothing fails to be looked up, something changed, and all that changed is wanted. */
  ghost predicate AndHolds(cs: seq<Condition>, format: Format) {
    && (forall c :: c in cs ==> LookupsSucceed(c))
    && (exists c :: c in cs && Changed(c))
    && (forall c :: c in cs && Changed(c) ==> c.operator == "Change" || Passes(c, format))
  }

  /** "or": no old value fails to be looked up, and something that changed is wanted. */
  ghost predicate OrHolds(cs: seq<Condition>, format: Format) {
    && (forall c :: c in cs ==> c.older.Some?)
    && (exists c :: c in cs && Wanted(c, format))
  }

  /** The "and" loop goes on after this condition. */
  predicate GoesOn(c: Condition, format: Format) {
    LookupsSucceed(c) && !Crashes(c) && (Changed(c) ==> c.operator == "Change" || Passes(c, format))
  }

  /** The "and" loop panics at this condition if it gets there. */
  predicate AndTrap(c: Condition) {
    LookupsSucceed(c) && Crashes(c)
  }

  /** The condition at k is the first at which a loop stops, and there it panics. */
  ghost predicate AndCrashes(cs: seq<Condition>, format: Format, k: nat) {
    k < |cs| && (forall i :: 0 <= i < k ==> GoesOn(cs[i], format)) && AndTrap(cs[k])
  }

  ghost predicate OrCrashes(cs: seq<Condition>, k: nat) {
    k < |cs| && (forall i :: 0 <= i < k ==> cs[i].older.Some?) && Crashes(cs[k])
  }

  /** What the loops return; None is a panic. */
  ghost function AndResult(cs: seq<Condition>, format: Format): Option<bool> {
    if exists k :: AndCrashes(cs, format, k) then None else Some(AndHolds(cs, format))
  }

  ghost function OrResult(cs: seq<Condition>, format: Format): Option<bool> {
    if exists k :: OrCrashes(cs, k) then None else Some(OrHolds(cs, format))
  }

  /** The evaluator; None is a panic. */
  method ConditionChecker(conditionType: string, cs: seq<Condition>, format: Format) returns (result: Option<bool>)
    ensures result == if conditionType == "and" then AndResult(cs, format)
                      else if conditionType == "or" then OrResult(cs, format) else Some(false)
  {
    if conditionType == "and" {
      result := AndLoop(cs, format);
    } else if conditionType == "or" {
      result := OrLoop(cs, format);
    } else {
      result := Some(false);
    }
  }

  method AndLoop(cs: seq<Condition>, format: Format) returns (result: Option<bool>)
    ensures result == AndResult(cs, format)
  {
    result := Some(false);
    var i := 0;
    while i < |cs|
      invariant 0 <= i <= |cs|
      invariant forall k :: 0 <= k < i ==> GoesOn(cs[k], format)
      invariant result == Some(exists k :: 0 <= k < i && Changed(cs[k]))
    {
      var c := cs[i];
      assert c in cs;
      AndStops(cs, format, i);
      if c.newer.None? {
        return Some(false);
      }
      if c.older.None? {
        return Some(false);
      }
      if Incomparable(c.newer.value, c.older.value) {
        return None;
      }
      if c.newer.value != c.older.value {
        if c.operator == "Change" {
          result := Some(true);
        } else if c.value.None? {
          return None;
        } else if !Cases(format(c.newer.value), c.value.value, c.operator) {
          result := Some(false);
          return;
        } else {
          result := Some(true);
        }
      }
      i := i + 1;
    }
  }

  /** A condition at which the "and" loop does not go on decides its result. */
  lemma AndStops(cs: seq<Condition>, format: Format, i: nat)
    requires i < |cs| && forall k :: 0 <= k < i ==> GoesOn(cs[k], format)
    ensures AndTrap(cs[i]) ==> AndResult(cs, format) == None
    ensures !AndTrap(cs[i]) && !GoesOn(cs[i], format) ==> AndResult(cs, format) == Some(false)
  {
    if AndTrap(cs[i]) {
      assert AndCrashes(cs, format, i);
    } else if !GoesOn(cs[i], format) {
      assert forall k :: !AndCrashes(cs, format, k);
      assert cs[i] in cs;
    }
  }

  method OrLoop(cs: seq<Condition>, format: Format) returns (result: Option<bool>)
    ensures result == OrResult(cs, format)
  {
    result := Some(false);
    var i := 0;
    while i < |cs|
      invariant 0 <= i <= |cs|
      invariant forall k :: 0 <= k < i ==> cs[k].older.Some? && !Crashes(cs[k])
      invariant result == Some(exists k :: 0 <= k < i && Wanted(cs[k], format))
    {
      var c := cs[i];
      assert c in cs;
      if c.older.None? {
        return Some(false);
      }
      if Incomparable(NewValue(c), c.older.value) {
        assert OrCrashes(cs, i);
        return None;
      }
      if NewValue(c) != c.older.value {
        if c.operator == "Change" {
          result := Some(true);
        } else if c.value.None? {
          assert OrCrashes(cs, i);
          return None;
        } else if Cases(format(NewValue(c)), c.value.value, c.operator) {
          result := Some(true);
        }
      }
      i := i + 1;
    }
  }

  // ----- the order of the conditions ----------------------------------------------------------

  lemma SameMembers(cs: seq<Condition>, ds: seq<Condition>)
    requires multiset(cs) == multiset(ds)
    ensures forall c :: c in cs <==> c in ds
  {
    assert forall c :: c in cs <==> c in multiset(cs);
    assert forall c :: c in ds <==> c in multiset(ds);
  }

  /** What the two kinds of policy ask of the conditions does not depend on their order. */
  lemma PermutingKeepsWhatHolds(cs: seq<Condition>, ds: seq<Condition>, format: Format)
    requires multiset(cs) == multiset(ds)
    ensures AndHolds(cs, format) <==> AndHolds(ds, format)
    ensures OrHolds(cs, format) <==> OrHolds(ds, format)
  {
    SameMembers(cs, ds);
  }

  /** The conditions with the one at i in front. */
  function InFront(cs: seq<Condition>, i: nat): (r: seq<Condition>)
    requires i < |cs|
    ensures |r| == |cs| && r[0] == cs[i] && multiset(r) == multiset(cs)
  {
    assert cs == cs[..i] + [cs[i]] + cs[i + 1..];
    [cs[i]] + cs[..i] + cs[i + 1..]
  }

  /** Either no condition can make the "and" loop panic, or nothing can make it stop before it does. */
  ghost predicate AndOrderFree(cs: seq<Condition>, format: Format) {
    (forall c :: c in cs ==> !AndTrap(c)) || (forall c :: c in cs ==> GoesOn(c, format) || AndTrap(c))
  }

  /** Not both a condition that makes the "or" loop panic and one that makes it stop before. */
  ghost predicate OrOrderFree(cs: seq<Condition>) {
    (forall c :: c in cs ==> !Crashes(c)) || (forall c :: c in cs ==> c.older.Some?)
  }

  lemma FirstTrap(cs: seq<Condition>, format: Format)
    requires forall c :: c in cs ==> GoesOn(c, format) || AndTrap(c)
    ensures AndResult(cs, format) == None <==> exists c :: c in cs && AndTrap(c)
  {
    forall k: nat | AndCrashes(cs, format, k)
      ensures exists c :: c in cs && AndTrap(c)
    {
      assert cs[k] in cs;
    }
    if i :| 0 <= i < |cs| && AndTrap(cs[i]) {
      var k := LeastTrap(cs, format, i);
    }
  }

  lemma {:induction false} LeastTrap(cs: seq<Condition>, format: Format, i: nat) returns (k: nat)
    requires i < |cs| && AndTrap(cs[i]) && forall c :: c in cs ==> GoesOn(c, format) || AndTrap(c)
    ensures AndCrashes(cs, format, k)
  {
    if j :| 0 <= j < i && !GoesOn(cs[j], format) {
      assert cs[j] in cs;
      k := LeastTrap(cs, format, j);
    } else {
      k := i;
    }
  }

  lemma LeastCrash(cs: seq<Condition>, i: nat) returns (k: nat)
    requires i < |cs| && Crashes(cs[i]) && forall c :: c in cs ==> c.older.Some?
    ensures OrCrashes(cs, k)
  {
    k := i;
    assert forall j :: 0 <= j < i ==> cs[j] in cs;
  }

  /** The "and" result is the same in every order if and only if no panic depends on what comes first. */
  lemma AndOrderExactly(cs: seq<Condition>, format: Format)
    ensures AndOrderFree(cs, format)
            <==> forall ds :: multiset(ds) == multiset(cs) ==> AndResult(ds, format) == AndResult(cs, format)
  {
    if AndOrderFree(cs, format) {
      forall ds | multiset(ds) == multiset(cs)
        ensures AndResult(ds, format) == AndResult(cs, format)
      {
        AndOrderIsIrrelevant(cs, ds, format);
      }
    } else {
      var i :| 0 <= i < |cs| && AndTrap(cs[i]);
      var j :| 0 <= j < |cs| && !GoesOn(cs[j], format) && !AndTrap(cs[j]);
      AndStops(InFront(cs, i), format, 0);
      AndStops(InFront(cs, j), format, 0);
      assert AndResult(InFront(cs, i), format) != AndResult(InFront(cs, j), format);
    }
  }

  lemma AndOrderIsIrrelevant(cs: seq<Condition>, ds: seq<Condition>, format: Format)
    requires AndOrderFree(cs, format) && multiset(ds) == multiset(cs)
    ensures AndResult(ds, format) == AndResult(cs, format)
  {
    SameMembers(cs, ds);
    PermutingKeepsWhatHolds(cs, ds, format);
    if forall c :: c in cs ==> !AndTrap(c) {
      NoTrapNoCrash(cs, format);
      NoTrapNoCrash(ds, format);
    } else {
      FirstTrap(cs, format);
      FirstTrap(ds, format);
    }
  }

  lemma NoTrapNoCrash(cs: seq<Condition>, format: Format)
    requires forall c :: c in cs ==> !AndTrap(c)
    ensures AndResult(cs, format) == Some(AndHolds(cs, format))
  {
    forall k: nat | k < |cs|
      ensures !AndCrashes(cs, format, k)
    {
      assert cs[k] in cs;
    }
  }

  /** The "or" result is the same in every order if and only if no panic depends on what comes first. */
  lemma OrOrderExactly(cs: seq<Condition>, format: Format)
    ensures OrOrderFree(cs)
            <==> forall ds :: multiset(ds) == multiset(cs) ==> OrResult(ds, format) == OrResult(cs, format)
  {
    if OrOrderFree(cs) {
      forall ds | multiset(ds) == multiset(cs)
        ensures OrResult(ds, format) == OrResult(cs, format)
      {
        OrOrderIsIrrelevant(cs, ds, format);
      }
    } else {
      var i :| 0 <= i < |cs| && Crashes(cs[i]);
      var j :| 0 <= j < |cs| && cs[j].older.None?;
      assert OrCrashes(InFront(cs, i), 0);
      assert forall k :: !OrCrashes(InFront(cs, j), k);
      assert OrResult(InFront(cs, i), format) != OrResult(InFront(cs, j), format);
    }
  }

  lemma OrOrderIsIrrelevant(cs: seq<Condition>, ds: seq<Condition>, format: Format)
    requires OrOrderFree(cs) && multiset(ds) == multiset(cs)
    ensures OrResult(ds, format) == OrResult(cs, format)
  {
    SameMembers(cs, ds);
    PermutingKeepsWhatHolds(cs, ds, format);
    OrCrashExactly(cs);
    OrCrashExactly(ds);
  }

  lemma OrCrashExactly(cs: seq<Condition>)
    requires OrOrderFree(cs)
    ensures (exists k :: OrCrashes(cs, k)) <==> exists c :: c in cs && Crashes(c)
  {
    if i :| 0 <= i < |cs| && Crashes(cs[i]) {
      assert cs[i] in cs;
      var k := LeastCrash(cs, i);
    }
    if k: nat :| OrCrashes(cs, k) {
      assert cs[k] in cs;
    }
  }

  /** The looked-up values can be compared and are not the same. */
  predicate Differs(c: Condition) {
    c.newer.Some? && c.older.Some? && !Incomparable(c.newer.value, c.older.value) && c.newer != c.older
  }

  /** With every lookup succeeding, what the policies ask reduces to what the conditions say about changes. */
  lemma WithoutLookupErrors(cs: seq<Condition>, format: Format)
    requires forall c :: c in cs ==> LookupsSucceed(c)
    ensures AndHolds(cs, format) ==> OrHolds(cs, format)
    ensures AndHolds(cs, format) <==>
              (exists c :: c in cs && Differs(c))
              && forall c :: c in cs && Differs(c) && c.operator != "Change" ==> Passes(c, format)
    ensures OrHolds(cs, format) <==>
              exists c :: c in cs && Differs(c) && (c.operator == "Change" || Passes(c, format))
    ensures (forall c :: c in cs ==> !Crashes(c)) ==>
              AndResult(cs, format) == Some(AndHolds(cs, format)) && OrResult(cs, format) == Some(OrHolds(cs, format))
  {
    forall c | c in cs
      ensures Changed(c) <==> Differs(c)
    {
    }
    if c :| c in cs && Differs(c) {
      assert Changed(c);
    }
    if c :| c in cs && Differs(c) && (c.operator == "Change" || Passes(c, format)) {
      assert Wanted(c, format);
    }
    if forall c :: c in cs ==> !Crashes(c) {
      NoTrapNoCrash(cs, format);
      OrCrashExactly(cs);
    }
  }

  // ----- policies that panic ------------------------------------------------------------------

  /** A replica count that changed, compared with a text that is missing. */
  const NO_TEXT := Condition("EqualTo", None, Some(Number(3.0)), Some(Number(2.0)))

  /** The same change, compared by an operator there is none of. */
  const NO_OPERATOR := Condition("equals", Some("3"), Some(Number(3.0)), Some(Number(2.0)))

  /** A key that selects the images of all containers. */
  const IMAGES := Condition("Change", None, Some(List([Text("nginx:1.21")])), Some(List([Text("nginx:1.20")])))

  /** A key that cannot be looked up in the old resource. */
  const NO_LOOKUP := Condition("Change", None, Some(Null), None)

  lemma MissingTextCrashes(format: Format)
    ensures AndResult([NO_TEXT], format) == None && OrResult([NO_TEXT], format) == None
  {
    assert AndCrashes([NO_TEXT], format, 0) && OrCrashes([NO_TEXT], 0);
  }

  lemma ListsCrash(format: Format)
    ensures AndResult([IMAGES], format) == None && OrResult([IMAGES], format) == None
  {
    assert AndCrashes([IMAGES], format, 0) && OrCrashes([IMAGES], 0);
  }

  /** The same conditions in two orders, once with a panic and once without. */
  lemma OrderDecidesAnd(format: Format)
    ensures AndResult([NO_OPERATOR, NO_TEXT], format) == Some(false)
    ensures AndResult([NO_TEXT, NO_OPERATOR], format) == None
  {
    assert Changed(NO_OPERATOR) && !Passes(NO_OPERATOR, format);
    AndStops([NO_OPERATOR, NO_TEXT], format, 0);
    AndStops([NO_TEXT, NO_OPERATOR], format, 0);
  }

  lemma OrderDecidesOr(format: Format)
    ensures OrResult([NO_LOOKUP, NO_TEXT], format) == Some(false)
    ensures OrResult([NO_TEXT, NO_LOOKUP], format) == None
  {
    assert OrCrashes([NO_TEXT, NO_LOOKUP], 0);
    assert NO_LOOKUP in [NO_LOOKUP, NO_TEXT];
    assert forall k :: !OrCrashes([NO_LOOKUP, NO_TEXT], k);
  }

  // ----- the comparison operators -------------------------------------------------------------

  lemma {:induction false} LessIsTotal(a: string, b: string)
    ensures a == b || Less(a, b) || Less(b, a)
  {
    if a != [] && b != [] && a[0] == b[0] {
      LessIsTotal(a[1..], b[1..]);
      assert a == [a[0]] + a[1..] && b == [b[0]] + b[1..];
    }
  }

  lemma {:induction false} LessIsAsymmetric(a: string, b: string)
    requires Less(a, b)
    ensures !Less(b, a) && a != b
  {
    if a != [] && a[0] == b[0] {
      LessIsAsymmetric(a[1..], b[1..]);
    }
  }

  lemma {:induction false} LessIsTransitive(a: string, b: string, c: string)
    requires Less(a, b) && Less(b, c)
    ensures Less(a, c)
  {
    if a != [] && a[0] == b[0] == c[0] {
      LessIsTransitive(a[1..], b[1..], c[1..]);
    }
  }

  /** Each operator is the negation of its opposite, and the strict ones exclude each other. */
  lemma OperatorsComeInPairs(key: string, value: string)
    ensures Cases(key, value, "EqualTo") <==> !Cases(key, value, "NotEqualTo")
    ensures Cases(key, value, "LessThan") <==> !Cases(key, value, "GreaterThanEqualTo")
    ensures Cases(key, value, "GreaterThan") <==> !Cases(key, value, "LessThanEqualTo")
    ensures !(Cases(key, value, "LessThan") && Cases(key, value, "GreaterThan"))
  {
    LessIsTotal(key, value);
    if Less(key, value) {
      LessIsAsymmetric(key, value);
    }
    if Less(value, key) {
      LessIsAsymmetric(value, key);
    }
  }

  // ----- what the operators and the loops decide ----------------------------------------------

  /** The order of texts: a proper beginning comes first, and else the smaller character where they first differ. */
  ghost predicate Before(a: string, b: string) {
    (a <= b && a != b) || exists k :: FirstDifference(a, b, k) && a[k] < b[k]
  }

  ghost predicate FirstDifference(a: string, b: string, k: int) {
    0 <= k < |a| && k < |b| && a[..k] == b[..k] && a[k] != b[k]
  }

  lemma {:induction false} LessExactly(a: string, b: string)
    ensures Less(a, b) <==> Before(a, b)
  {
    if a != [] && b != [] {
      if a[0] == b[0] {
        LessExactly(a[1..], b[1..]);
        SameFirst(a, b);
      } else {
        assert FirstDifference(a, b, 0);
        forall k | FirstDifference(a, b, k)
          ensures k == 0
        {
          AgreeBelow(a, b, k);
        }
      }
    }
  }

  lemma AgreeBelow(a: string, b: string, k: int)
    requires FirstDifference(a, b, k)
    ensures forall i :: 0 <= i < k ==> a[i] == b[i]
  {
    forall i | 0 <= i < k
      ensures a[i] == b[i]
    {
      assert a[i] == a[..k][i] && b[i] == b[..k][i];
    }
  }

  lemma SameFirst(a: string, b: string)
    requires a != [] && b != [] && a[0] == b[0]
    ensures Before(a, b) <==> Before(a[1..], b[1..])
  {
    assert a == [a[0]] + a[1..] && b == [b[0]] + b[1..];
    if k :| FirstDifference(a, b, k) && a[k] < b[k] {
      assert a[1..][..k - 1] == a[..k][1..] && b[1..][..k - 1] == b[..k][1..];
      assert FirstDifference(a[1..], b[1..], k - 1);
    }
    if k :| FirstDifference(a[1..], b[1..], k) && a[1..][k] < b[1..][k] {
      assert a[..k + 1] == [a[0]] + a[1..][..k] && b[..k + 1] == [b[0]] + b[1..][..k];
      assert FirstDifference(a, b, k + 1);
    }
  }

  /** What the condition's text and operator ask of the printed value. */
  ghost predicate Meets(shown: string, text: string, operator: string) {
    || (operator == "EqualTo" && shown == text)
    || (operator == "NotEqualTo" && shown != text)
    || (operator == "LessThan" && Before(shown, text))
    || (operator == "LessThanEqualTo" && !Before(text, shown))
    || (operator == "GreaterThan" && Before(text, shown))
    || (operator == "GreaterThanEqualTo" && !Before(shown, text))
  }

  /** Each operator decides by the order of texts; no other operator is ever satisfied. */
  lemma CasesExactly(shown: string, text: string, operator: string)
    ensures Cases(shown, text, operator) <==> Meets(shown, text, operator)
  {
    LessExactly(shown, text);
    LessExactly(text, shown);
    LessIsTotal(shown, text);
    if Less(shown, text) {
      LessIsAsymmetric(shown, text);
    } else if Less(text, shown) {
      LessIsAsymmetric(text, shown);
    }
  }

  /** Two lists or two objects. */
  predicate BothComposite(a: Value, b: Value) {
    (a.List? && b.List?) || (a.Object? && b.Object?)
  }

  /** The condition gives the "and" loop no reason to stop. */
  ghost predicate Unobjectionable(c: Condition, format: Format) {
    && c.newer.Some? && c.older.Some? && !BothComposite(c.newer.value, c.older.value)
    && (|| c.newer.value == c.older.value || c.operator == "Change"
        || (c.value.Some? && Meets(format(c.newer.value), c.value.value, c.operator)))
  }

  lemma GoesOnExactly(c: Condition, format: Format)
    ensures GoesOn(c, format) <==> Unobjectionable(c, format)
  {
    if c.newer.Some? && c.value.Some? {
      CasesExactly(format(c.newer.value), c.value.value, c.operator);
    }
  }

  /** If no condition objects, "and" is true exactly if some value changed. */
  lemma AndOfUnobjectionable(cs: seq<Condition>, format: Format)
    requires forall i :: 0 <= i < |cs| ==> Unobjectionable(cs[i], format)
    ensures AndResult(cs, format) == Some(exists i :: 0 <= i < |cs| && cs[i].newer != cs[i].older)
  {
    forall i | 0 <= i < |cs|
      ensures GoesOn(cs[i], format) && (Changed(cs[i]) <==> cs[i].newer != cs[i].older)
    {
      GoesOnExactly(cs[i], format);
    }
    assert forall k :: !AndCrashes(cs, format, k);
    if i :| 0 <= i < |cs| && cs[i].newer != cs[i].older {
      assert cs[i] in cs && Changed(cs[i]);
    }
  }

  /** Else the first one that objects decides: a panic over what it cannot compare or lacks, and otherwise false. */
  lemma AndOfFirstObjection(cs: seq<Condition>, format: Format, k: nat)
    requires k < |cs| && !Unobjectionable(cs[k], format)
    requires forall i :: 0 <= i < k ==> Unobjectionable(cs[i], format)
    ensures AndResult(cs, format)
            == if cs[k].newer.None? || cs[k].older.None? then Some(false)
               else if BothComposite(cs[k].newer.value, cs[k].older.value) || cs[k].value.None? then None
               else Some(false)
  {
    forall i | 0 <= i <= k
      ensures GoesOn(cs[i], format) <==> Unobjectionable(cs[i], format)
    {
      GoesOnExactly(cs[i], format);
    }
    AndStops(cs, format, k);
  }

  /** The new value as "or" sees it: null if it could not be looked up. */
  function NewOrNull(c: Condition): Value {
    match c.newer
    case Some(v) => v
    case None => Null
  }

  /** The condition gives the "or" loop no reason to stop. */
  predicate Evaluable(c: Condition) {
    && c.older.Some? && !BothComposite(NewOrNull(c), c.older.value)
    && (NewOrNull(c) == c.older.value || c.operator == "Change" || c.value.Some?)
  }

  /** The value changed, and as the operator asks. */
  ghost predicate ChangedAsAsked(c: Condition, format: Format) {
    && c.older.Some? && NewOrNull(c) != c.older.value
    && (c.operator == "Change"
        || (c.value.Some? && Meets(format(NewOrNull(c)), c.value.value, c.operator)))
  }

  lemma WantedExactly(c: Condition, format: Format)
    requires Evaluable(c)
    ensures !Crashes(c) && (Wanted(c, format) <==> ChangedAsAsked(c, format))
  {
    if c.value.Some? {
      CasesExactly(format(NewOrNull(c)), c.value.value, c.operator);
    }
  }

  /** "or" is true exactly if some value changed as asked, if every condition can be evaluated. */
  lemma OrOfEvaluable(cs: seq<Condition>, format: Format)
    requires forall c :: c in cs ==> Evaluable(c)
    ensures OrResult(cs, format) == Some(exists c :: c in cs && ChangedAsAsked(c, format))
  {
    forall c | c in cs
      ensures !Crashes(c) && (Wanted(c, format) <==> ChangedAsAsked(c, format))
    {
      WantedExactly(c, format);
    }
    assert forall k :: !OrCrashes(cs, k);
  }

  /** Else the first one that cannot be evaluated decides: false if its old value is missing, and if not a panic. */
  lemma OrOfFirstTrouble(cs: seq<Condition>, format: Format, k: nat)
    requires k < |cs| && !Evaluable(cs[k]) && forall i :: 0 <= i < k ==> Evaluable(cs[i])
    ensures OrResult(cs, format) == if cs[k].older.None? then Some(false) else None
  {
    if cs[k].older.None? {
      assert cs[k] in cs;
      assert forall j :: !OrCrashes(cs, j);
    } else {
      assert OrCrashes(cs, k);
    }
  }
}
