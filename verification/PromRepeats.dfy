/** Reading a selector in which a label is repeated: it is read once, with the values of all its matchers. */
module PromRepeats {
  import opened Prelude
  import opened JsText
  import opened PromLabels
  import opened PromRoundTrip

  /** The values a label has in a list, entry after entry. */
  function ValuesOf(list: seq<LabelValue>, name: string): seq<string> {
    if list == [] then []
    else ValuesOf(Front(list), name) + if Last(list).name == name then Last(list).values else []
  }

  /** The label has an entry. */
  ghost predicate Named(list: seq<LabelValue>, name: string) {
    exists k :: 0 <= k < |list| && list[k].name == name
  }

  /** Entries joined into a list one after the other. */
  function Joined(list: seq<LabelValue>): seq<LabelValue> {
    if list == [] then [] else Added(Joined(Front(list)), Last(list))
  }

  lemma {:induction false} CollectsJoined(readings: seq<Option<LabelValue>>, list: seq<LabelValue>, n: nat)
    requires n <= |list| <= |readings|
    requires forall i :: 0 <= i < |list| ==> readings[i] == Some(list[i])
    ensures Collected(readings, n) == Joined(list[..n])
  {
    if n > 0 {
      CollectsJoined(readings, list, n - 1);
      assert Front(list[..n]) == list[..n - 1] && Last(list[..n]) == list[n - 1];
    }
  }

  lemma ReadingsOfMatchers(list: seq<LabelValue>, tail: string)
    requires AllClean(list)
    ensures var readings := Readings(ReadMatcher, Pieces(Matchers(list), tail));
            |readings| == |list| + 1 && forall i :: 0 <= i < |list| ==> readings[i] == Some(Normals(list)[i])
  {
    MatchersAreRead(list);
    forall i | 0 <= i < |list|
      ensures Readings(ReadMatcher, Pieces(Matchers(list), tail))[i] == Some(Normals(list)[i])
    {
      ReadsTexts(ReadMatcher, Matchers(list), tail, i);
    }
  }

  lemma PiecesAreJoined(list: seq<LabelValue>, readings: seq<Option<LabelValue>>)
    requires |readings| == |list| + 1 && forall i :: 0 <= i < |list| ==> readings[i] == Some(list[i])
    requires readings[|list|] == None
    ensures Collected(readings, |readings|) == Joined(list)
  {
    CollectsJoined(readings, list, |list|);
    assert list[..|list|] == list;
  }

  /** What is read from a selector of written matchers, repeated labels or not. */
  lemma SelectorIsJoined(p: string, list: seq<LabelValue>, s: string)
    requires '{' !in p && AllClean(list)
    ensures Labels(p + "{" + (Rendered(list) + ("" + "}" + s))) == Joined(Normals(list))
  {
    MatchersAreClean(list);
    RenderedIsCommaEnded(list);
    SelectorIsFound(p, Matchers(list), "", s);
    SelectorIsSplit(Matchers(list), "" + "}");
    LabelsOfSelector(p + "{" + (Rendered(list) + ("" + "}" + s)), Pieces(Matchers(list), "" + "}"),
                     "{" + (CommaEnded(Matchers(list)) + ("" + "}")));
    AdjustedLast(Matchers(list), "");
    NothingIsRead();
    ReadingsOfMatchers(list, "" + "}");
    PiecesAreJoined(Normals(list), Readings(ReadMatcher, Pieces(Matchers(list), "" + "}")));
  }

  // ----- joining keeps all values -------------------------------------------------------------

  lemma {:induction false} NoValues(list: seq<LabelValue>, name: string)
    requires !Named(list, name)
    ensures ValuesOf(list, name) == []
  {
    if list != [] {
      assert forall k :: 0 <= k < |Front(list)| ==> Front(list)[k] == list[k];
      assert list[|list| - 1] == Last(list);
      NoValues(Front(list), name);
    }
  }

  lemma {:induction false} ValuesAfterUpdate(list: seq<LabelValue>, more: seq<LabelValue>, lv: LabelValue)
    requires Distinct(list) && |more| == |list|
    requires forall k :: 0 <= k < |list| ==>
               more[k] == if list[k].name == lv.name then LabelValue(lv.name, list[k].values + lv.values) else list[k]
    ensures ValuesOf(more, lv.name) == ValuesOf(list, lv.name) + if Named(list, lv.name) then lv.values else []
  {
    if list != [] {
      var last := Last(list);
      assert last == list[|list| - 1] && Last(more) == more[|list| - 1];
      NamedOneMore(list, lv.name);
      ValuesAfterUpdate(Front(list), Front(more), lv);
      if last.name == lv.name {
        assert !Named(Front(list), lv.name);
        NoValues(Front(list), lv.name);
      }
    }
  }

  lemma {:induction false} OtherValuesStay(list: seq<LabelValue>, more: seq<LabelValue>, lv: LabelValue, name: string)
    requires |more| == |list| && name != lv.name
    requires forall k :: 0 <= k < |list| ==>
               more[k] == if list[k].name == lv.name then LabelValue(lv.name, list[k].values + lv.values) else list[k]
    ensures ValuesOf(more, name) == ValuesOf(list, name)
  {
    if list != [] {
      assert Last(list) == list[|list| - 1] && Last(more) == more[|list| - 1];
      OtherValuesStay(Front(list), Front(more), lv, name);
    }
  }

  lemma NamedOneMore(list: seq<LabelValue>, name: string)
    requires list != []
    ensures Named(list, name) <==> Named(Front(list), name) || Last(list).name == name
  {
    if Named(Front(list), name) {
      var k :| 0 <= k < |Front(list)| && Front(list)[k].name == name;
      assert list[k].name == name;
    }
    if Last(list).name == name {
      assert list[|list| - 1].name == name;
    }
  }

  /** Adding an entry adds its values to those of its label, and no label gets a second entry. */
  lemma AddedValues(list: seq<LabelValue>, lv: LabelValue, name: string)
    requires Distinct(list)
    ensures Distinct(Added(list, lv))
    ensures ValuesOf(Added(list, lv), name) == ValuesOf(list, name) + if name == lv.name then lv.values else []
    ensures Named(Added(list, lv), name) <==> Named(list, name) || name == lv.name
  {
    var r := Added(list, lv);
    if Named(list, lv.name) {
      if name == lv.name {
        ValuesAfterUpdate(list, r, lv);
      } else {
        OtherValuesStay(list, r, lv, name);
      }
      assert forall k :: 0 <= k < |list| ==> r[k].name == list[k].name;
    } else {
      assert r == list + [lv];
      assert Front(r) == list && Last(r) == lv;
      NamedOneMore(r, name);
    }
  }

  /** Joining loses no value and invents none. */
  lemma {:induction false} JoinedValues(list: seq<LabelValue>, name: string)
    ensures Distinct(Joined(list))
    ensures ValuesOf(Joined(list), name) == ValuesOf(list, name)
    ensures Named(Joined(list), name) <==> Named(list, name)
  {
    if list != [] {
      JoinedValues(Front(list), name);
      AddedValues(Joined(Front(list)), Last(list), name);
      NamedOneMore(list, name);
    }
  }

  /** Every label of a selector is read once, with the values of all its matchers, in their order. */
  lemma RepeatedLabelsAreJoined(p: string, list: seq<LabelValue>, s: string, name: string)
    requires '{' !in p && AllClean(list)
    ensures var read := Labels(p + "{" + (Rendered(list) + ("" + "}" + s)));
            && Distinct(read)
            && (Named(read, name) <==> Named(list, name))
            && ValuesOf(read, name) == ValuesOf(Normals(list), name)
  {
    SelectorIsJoined(p, list, s);
    JoinedValues(Normals(list), name);
    if Named(list, name) {
      var k :| 0 <= k < |list| && list[k].name == name;
      assert Normals(list)[k].name == name;
    }
  }
}
