/**
 Paging through the usage list. Every page is a request of its own, and the database promises no order for
 groups or for rows with equal keys: what the pages show together, and exactly when that is the list.
 */
module UsagePages {
  import opened Prelude
  import opened Usage

  /** What the list of a request can be on a database: groups and rows with equal keys come in any order. */
  ghost predicate MayList(list: seq<Row>, q: Query, db: Database, range: Range) {
    exists ids, e :: Groups(ids, db) && Sorts(e) && list == Listed(Rows(ids, db, range), q, e)
  }

  /** A row of every project that has a cluster, each once. */
  ghost predicate OneRowEach(list: seq<Row>, db: Database, range: Range) {
    exists ids :: Groups(ids, db) && list == Rows(ids, db, range)
  }

  /** Where a row belongs in the list: rows with the same place may come in any order. */
  function Rank(row: Row, q: Query): int {
    if q.sort.None? then 0
    else if q.sort.value.descending then -KeyOf(row, q.sort.value.field)
    else KeyOf(row, q.sort.value.field)
  }

  ghost predicate InOrder(list: seq<Row>, q: Query) {
    forall i, j :: 0 <= i < j < |list| ==> Rank(list[i], q) <= Rank(list[j], q)
  }

  // ----- what can be listed -------------------------------------------------------------------

  lemma {:induction false} OnceAtMost(rows: seq<Row>, row: Row)
    requires forall i, j :: 0 <= i < j < |rows| ==> rows[i] != rows[j]
    ensures multiset(rows)[row] <= 1
  {
    if rows != [] {
      assert rows == [rows[0]] + rows[1..];
      OnceAtMost(rows[1..], row);
      assert row == rows[0] ==> row !in rows[1..];
    }
  }

  lemma TwiceCounts(rows: seq<Row>, i: nat, j: nat)
    requires i < j < |rows| && rows[i] == rows[j]
    ensures multiset(rows)[rows[i]] >= 2
  {
    assert rows == rows[..j] + rows[j..];
    assert rows[..j][i] == rows[i] && rows[j..][0] == rows[j];
  }

  lemma SameRows(rows: seq<Row>, list: seq<Row>, row: Row)
    requires multiset(list) == multiset(rows)
    ensures row in list <==> row in rows
  {
    assert row in multiset(list) <==> row in multiset(rows);
  }

  lemma StayDifferent(rows: seq<Row>, list: seq<Row>)
    requires multiset(list) == multiset(rows) && forall i, j :: 0 <= i < j < |rows| ==> rows[i] != rows[j]
    ensures forall i, j :: 0 <= i < j < |list| ==> list[i] != list[j]
  {
    forall i, j | 0 <= i < j < |list|
      ensures list[i] != list[j]
    {
      if list[i] == list[j] {
        TwiceCounts(list, i, j);
        OnceAtMost(rows, list[i]);
      }
    }
  }

  function IdsOf(list: seq<Row>): (ids: seq<string>)
    ensures |ids| == |list| && forall i :: 0 <= i < |list| ==> ids[i] == list[i].id
  {
    seq(|list|, i requires 0 <= i < |list| => list[i].id)
  }

  lemma IdsOfRows(ids: seq<string>, db: Database, range: Range)
    ensures IdsOf(Rows(ids, db, range)) == ids
  {
  }

  /** Rows made from their ids. */
  ghost predicate Made(list: seq<Row>, db: Database, range: Range) {
    forall row :: row in list ==> row == RowOf(row.id, db, range)
  }

  lemma MadeFromIds(list: seq<Row>, db: Database, range: Range)
    requires Made(list, db, range)
    ensures list == Rows(IdsOf(list), db, range)
  {
    assert forall i :: 0 <= i < |list| ==> list[i] in list && list[i] == RowOf(IdsOf(list)[i], db, range);
  }

  lemma SameIds(rows: seq<Row>, list: seq<Row>)
    requires forall row :: row in list <==> row in rows
    ensures forall id :: id in IdsOf(list) <==> id in IdsOf(rows)
  {
    forall id
      ensures id in IdsOf(list) <==> id in IdsOf(rows)
    {
      IdIn(list, id);
      IdIn(rows, id);
    }
  }

  lemma IdIn(list: seq<Row>, id: string)
    ensures id in IdsOf(list) <==> exists row :: row in list && row.id == id
  {
    if id in IdsOf(list) {
      var i :| 0 <= i < |list| && IdsOf(list)[i] == id;
      assert list[i] in list;
    }
  }

  /** The rows in another order. */
  lemma OtherOrder(ids: seq<string>, list: seq<Row>, db: Database, range: Range)
    requires Groups(ids, db) && multiset(list) == multiset(Rows(ids, db, range))
    ensures OneRowEach(list, db, range)
  {
    var rows := Rows(ids, db, range);
    forall row
      ensures row in list <==> row in rows
    {
      SameRows(rows, list, row);
    }
    assert Made(rows, db, range);
    StayDifferent(rows, list);
    MadeFromIds(list, db, range);
    IdsOfRows(ids, db, range);
    SameIds(rows, list);
    GroupsAsWell(ids, IdsOf(list), list, db, range);
  }

  lemma GroupsAsWell(ids: seq<string>, others: seq<string>, list: seq<Row>, db: Database, range: Range)
    requires Groups(ids, db) && list == Rows(others, db, range)
    requires forall i, j :: 0 <= i < j < |list| ==> list[i] != list[j]
    requires forall id :: id in others <==> id in ids
    ensures Groups(others, db)
  {
    forall i, j | 0 <= i < j < |others|
      ensures others[i] != others[j]
    {
      assert list[i] != list[j];
    }
  }

  /** Some way to sort. */
  function Inserted(s: Sorting, row: Row, list: seq<Row>): (r: seq<Row>)
    ensures multiset(r) == multiset(list) + multiset{row}
    ensures r != [] && (r[0] == row || (list != [] && r[0] == list[0]))
  {
    if list == [] || Precedes(s, row, list[0]) then [row] + list
    else
      assert list == [list[0]] + list[1..];
      [list[0]] + Inserted(s, row, list[1..])
  }

  predicate Precedes(s: Sorting, a: Row, b: Row) {
    if s.descending then KeyOf(a, s.field) >= KeyOf(b, s.field) else KeyOf(a, s.field) <= KeyOf(b, s.field)
  }

  lemma {:induction false} InsertedIsOrdered(s: Sorting, row: Row, list: seq<Row>)
    requires Ordered(s, list)
    ensures Ordered(s, Inserted(s, row, list))
  {
    if list != [] && !Precedes(s, row, list[0]) {
      var more := Inserted(s, row, list[1..]);
      InsertedIsOrdered(s, row, list[1..]);
      forall i | 0 <= i < |more|
        ensures Precedes(s, list[0], more[i])
      {
        assert more[i] in multiset(more);
        assert more[i] == row || more[i] in list[1..];
      }
    }
  }

  function InsertionSorted(s: Sorting, rows: seq<Row>): (r: seq<Row>)
    ensures multiset(r) == multiset(rows)
  {
    if rows == [] then []
    else
      assert rows == [rows[0]] + rows[1..];
      Inserted(s, rows[0], InsertionSorted(s, rows[1..]))
  }

  lemma {:induction false} InsertionSorts(s: Sorting, rows: seq<Row>)
    ensures Ordered(s, InsertionSorted(s, rows))
  {
    if rows != [] {
      InsertionSorts(s, rows[1..]);
      InsertedIsOrdered(s, rows[0], InsertionSorted(s, rows[1..]));
    }
  }

  /** An engine that settles on the given list where it can. */
  function Settling(list: seq<Row>, by_: Sorting): Engine {
    Engine((s: Sorting, rows: seq<Row>) =>
             if s == by_ && multiset(rows) == multiset(list) then list else InsertionSorted(s, rows),
           (regex: string, name: string) => false)
  }

  lemma SettlingSorts(list: seq<Row>, s: Sorting)
    requires Ordered(s, list)
    ensures Sorts(Settling(list, s))
  {
    forall t, rows
      ensures Ordered(t, Settling(list, s).sorted(t, rows))
    {
      InsertionSorts(t, rows);
    }
  }

  lemma OrderedIsInOrder(list: seq<Row>, q: Query)
    requires q.sort.Some?
    ensures Ordered(q.sort.value, list) <==> InOrder(list, q)
  {
  }

  lemma ListedInOrder(ids: seq<string>, q: Query, db: Database, range: Range, e: Engine)
    requires Groups(ids, db) && Sorts(e) && q.searchProject.None?
    ensures var list := Listed(Rows(ids, db, range), q, e);
            OneRowEach(list, db, range) && InOrder(list, q)
  {
    var rows := Rows(ids, db, range);
    var list := Listed(rows, q, e);
    if q.sort.Some? {
      assert list == e.sorted(q.sort.value, rows);
      OrderedIsInOrder(list, q);
    }
    OtherOrder(ids, list, db, range);
  }

  lemma SettlesOn(list: seq<Row>, q: Query, s: Sorting)
    requires q.searchProject.None? && (q.sort.Some? ==> q.sort.value == s)
    ensures Listed(list, q, Settling(list, s)) == list
  {
  }

  lemma SomeEngineLists(list: seq<Row>, q: Query) returns (e: Engine)
    requires InOrder(list, q) && q.searchProject.None?
    ensures Sorts(e) && Listed(list, q, e) == list
  {
    var s := if q.sort.Some? then q.sort.value else Sorting(OtherField, false);
    if q.sort.Some? {
      OrderedIsInOrder(list, q);
    }
    SettlingSorts(list, s);
    SettlesOn(list, q, s);
    e := Settling(list, s);
  }

  lemma AnyOrderIsListed(ids: seq<string>, list: seq<Row>, q: Query, db: Database, range: Range)
    requires Groups(ids, db) && list == Rows(ids, db, range) && InOrder(list, q) && q.searchProject.None?
    ensures MayList(list, q, db, range)
  {
    var e := SomeEngineLists(list, q);
  }

  /** Without a search, any order of the projects that keeps to the sorting can be listed, and no other list. */
  lemma MayListExactly(list: seq<Row>, q: Query, db: Database, range: Range)
    requires q.searchProject.None?
    ensures MayList(list, q, db, range) <==> OneRowEach(list, db, range) && InOrder(list, q)
  {
    if MayList(list, q, db, range) {
      var ids, e :| Groups(ids, db) && Sorts(e) && list == Listed(Rows(ids, db, range), q, e);
      ListedInOrder(ids, q, db, range, e);
    }
    if OneRowEach(list, db, range) && InOrder(list, q) {
      var ids :| Groups(ids, db) && list == Rows(ids, db, range);
      AnyOrderIsListed(ids, list, q, db, range);
    }
  }

  lemma DifferentRows(list: seq<Row>, db: Database, range: Range)
    requires OneRowEach(list, db, range)
    ensures forall i, j :: 0 <= i < j < |list| ==> list[i] != list[j]
    ensures Made(list, db, range) && forall row :: row in list ==> InSome(row.id, db)
    ensures forall id :: InSome(id, db) ==> RowOf(id, db, range) in list
  {
    var ids :| Groups(ids, db) && list == Rows(ids, db, range);
    forall i, j | 0 <= i < j < |list|
      ensures list[i] != list[j]
    {
      assert ids[i] != ids[j];
    }
    forall id | InSome(id, db)
      ensures RowOf(id, db, range) in list
    {
      assert id in ids;
      var k :| 0 <= k < |ids| && ids[k] == id;
      assert list[k] == RowOf(id, db, range);
    }
    forall row | row in list
      ensures row == RowOf(row.id, db, range) && InSome(row.id, db)
    {
      var k :| 0 <= k < |ids| && list[k] == row;
      assert ids[k] in ids;
    }
  }

  ghost predicate InSome(id: string, db: Database) {
    exists c :: c in db.clusters && c.projectID == id
  }

  /** How often a row is in a list. */
  ghost function Count(row: Row, db: Database, range: Range): nat {
    if InSome(row.id, db) && row == RowOf(row.id, db, range) then 1 else 0
  }

  lemma CountsWhatIsIn(list: seq<Row>, row: Row, db: Database, range: Range)
    requires OneRowEach(list, db, range)
    ensures multiset(list)[row] == Count(row, db, range)
  {
    DifferentRows(list, db, range);
    OnceAtMost(list, row);
    assert row in list <==> row in multiset(list);
  }

  lemma SameCounts(a: seq<Row>, b: seq<Row>, count: Row -> int)
    requires forall row :: multiset(a)[row] == count(row) && multiset(b)[row] == count(row)
    ensures multiset(a) == multiset(b)
  {
  }

  /** On one database, any two lists have the same rows. */
  lemma ListsHaveSameRows(a: seq<Row>, b: seq<Row>, db: Database, range: Range)
    requires OneRowEach(a, db, range) && OneRowEach(b, db, range)
    ensures multiset(a) == multiset(b)
  {
    forall row
      ensures multiset(a)[row] == Count(row, db, range) && multiset(b)[row] == Count(row, db, range)
    {
      CountsWhatIsIn(a, row, db, range);
      CountsWhatIsIn(b, row, db, range);
    }
    SameCounts(a, b, (row: Row) => Count(row, db, range));
  }

  // ----- rows with equal keys -----------------------------------------------------------------

  lemma SameSize(a: multiset<Row>, b: multiset<Row>)
    requires |a| == |b| && forall x :: a[x] <= b[x]
    ensures a == b
  {
    assert a <= b;
    assert |b - a| == |b| - |a|;
    assert b == a + (b - a);
  }

  lemma MoreOfSome(a: multiset<Row>, b: multiset<Row>) returns (x: Row)
    requires |a| == |b| && a != b
    ensures a[x] > b[x]
  {
    if forall y :: a[y] <= b[y] {
      SameSize(a, b);
    }
    x :| a[x] > b[x];
  }

  lemma PartsAddUp(list: seq<Row>, n: nat, row: Row)
    requires n <= |list|
    ensures multiset(list)[row] == multiset(list[..n])[row] + multiset(list[n..])[row]
  {
    assert list == list[..n] + list[n..];
  }

  lemma PrefixIsBefore(list: seq<Row>, q: Query, n: nat, x: Row, y: Row)
    requires InOrder(list, q) && n <= |list| && x in list[..n] && y in list[n..]
    ensures Rank(x, q) <= Rank(y, q)
    ensures Rank(list[n - 1], q) < Rank(list[n], q) ==> Rank(x, q) < Rank(y, q)
  {
    var i :| 0 <= i < n && list[..n][i] == x;
    var j :| 0 <= j < |list| - n && list[n..][j] == y;
    assert list[i] == x && list[n + j] == y;
    assert Rank(x, q) <= Rank(list[n - 1], q) && Rank(list[n], q) <= Rank(y, q);
  }

  /** Where neighbours differ in their keys, every order of the list has the same rows up to there. */
  lemma SamePrefix(a: seq<Row>, b: seq<Row>, q: Query, n: nat)
    requires multiset(a) == multiset(b) && InOrder(a, q) && InOrder(b, q) && n <= |a|
    requires 0 < n < |a| ==> Rank(a[n - 1], q) < Rank(a[n], q)
    ensures |a| == |b| && multiset(a[..n]) == multiset(b[..n])
  {
    assert |multiset(a)| == |a| && |multiset(b)| == |b|;
    if n == |a| {
      assert a[..n] == a && b[..n] == b;
    } else if multiset(a[..n]) != multiset(b[..n]) {
      var x := MoreOfSome(multiset(a[..n]), multiset(b[..n]));
      var y := MoreOfSome(multiset(b[..n]), multiset(a[..n]));
      PartsAddUp(a, n, x);
      PartsAddUp(b, n, x);
      PartsAddUp(a, n, y);
      PartsAddUp(b, n, y);
      PrefixIsBefore(a, q, n, x, y);
      PrefixIsBefore(b, q, n, y, x);
    }
  }

  ghost predicate DifferentRanks(list: seq<Row>, q: Query) {
    forall i, j :: 0 <= i < j < |list| ==> Rank(list[i], q) != Rank(list[j], q)
  }

  lemma OneMoreRow(list: seq<Row>, n: nat)
    requires n < |list|
    ensures multiset(list[..n + 1]) == multiset(list[..n]) + multiset{list[n]}
  {
    assert list[..n + 1] == list[..n] + [list[n]];
  }

  /** With different keys there is only one order. */
  lemma OnlyOneOrder(a: seq<Row>, b: seq<Row>, q: Query)
    requires multiset(a) == multiset(b) && InOrder(a, q) && InOrder(b, q) && DifferentRanks(a, q)
    ensures a == b
  {
    assert |multiset(a)| == |a| && |multiset(b)| == |b|;
    forall n | 0 <= n < |a|
      ensures a[n] == b[n]
    {
      SamePrefix(a, b, q, n);
      SamePrefix(a, b, q, n + 1);
      OneMoreRow(a, n);
      OneMoreRow(b, n);
      assert a[n] in multiset(a[..n + 1]) - multiset(a[..n]);
    }
  }

  /** Any list of the request is the same one. */
  lemma OnlyOneList(a: seq<Row>, b: seq<Row>, q: Query, db: Database, range: Range)
    requires q.searchProject.None? && MayList(a, q, db, range) && MayList(b, q, db, range) && DifferentRanks(a, q)
    ensures a == b
  {
    MayListExactly(a, q, db, range);
    MayListExactly(b, q, db, range);
    ListsHaveSameRows(a, b, db, range);
    OnlyOneOrder(a, b, q);
  }

  // ----- pages --------------------------------------------------------------------------------

  lemma TakeMore(list: seq<Row>, from: nat, limit: nat)
    ensures Take(list, from) + Take(Drop(list, from), limit) == Take(list, from + limit)
  {
  }

  lemma OnePageMore(limit: int, n: nat)
    requires limit > 0
    ensures 0 <= n * limit && (n + 1) * limit == n * limit + limit
  {
  }

  /** Where page n begins. */
  function Start(n: nat, limit: int): (r: nat)
    requires limit > 0
  {
    OnePageMore(limit, n);
    n * limit
  }

  /** Page n of a list. */
  function PageAt(list: seq<Row>, limit: int, n: nat): (r: seq<Row>)
    requires limit > 0
    ensures Page(list, Some(Paging(n, limit))) == Ok(r)
  {
    OnePageMore(limit, n);
    Page(list, Some(Paging(n, limit))).value
  }

  /** The pages 0, 1, .. one after the other, each taken from the list its own request has. */
  function PagesOf(lists: seq<seq<Row>>, limit: int): seq<Row>
    requires limit > 0
  {
    if lists == [] then [] else PagesOf(Front(lists), limit) + PageAt(Last(lists), limit, |lists| - 1)
  }

  lemma PageGoesOn(list: seq<Row>, limit: int, n: nat)
    requires limit > 0
    ensures Take(list, Start(n, limit)) + PageAt(list, limit, n) == Take(list, Start(n + 1, limit))
  {
    OnePageMore(limit, n);
    TakeMore(list, n * limit, limit);
  }

  lemma OneMoreOfList(lists: seq<seq<Row>>, list: seq<Row>, limit: int, n: nat)
    requires limit > 0 && |lists| == n + 1 && Last(lists) == list
    requires PagesOf(Front(lists), limit) == Take(list, Start(n, limit))
    ensures PagesOf(lists, limit) == Take(list, Start(n + 1, limit))
  {
    PageGoesOn(list, limit, n);
  }

  lemma {:induction false} PagesOfOneList(lists: seq<seq<Row>>, list: seq<Row>, limit: int)
    requires limit > 0 && forall i :: 0 <= i < |lists| ==> lists[i] == list
    ensures PagesOf(lists, limit) == Take(list, Start(|lists|, limit))
    decreases |lists|
  {
    if lists != [] {
      PagesOfOneList(Front(lists), list, limit);
      OneMoreOfList(lists, list, limit, |lists| - 1);
    }
  }

  lemma OneListAgain(lists: seq<seq<Row>>, i: nat, list: seq<Row>, q: Query, db: Database, range: Range)
    requires q.searchProject.None? && MayList(list, q, db, range) && DifferentRanks(list, q)
    requires i < |lists| && forall l :: l in lists ==> MayList(l, q, db, range)
    ensures lists[i] == list
  {
    OnlyOneList(list, lists[i], q, db, range);
  }

  /** If the keys differ, the pages of any requests one after the other are the list. */
  lemma PagesAreTheList(lists: seq<seq<Row>>, list: seq<Row>, q: Query, db: Database, range: Range, limit: int)
    requires limit > 0 && q.searchProject.None? && MayList(list, q, db, range) && DifferentRanks(list, q)
    requires forall l :: l in lists ==> MayList(l, q, db, range)
    ensures PagesOf(lists, limit) == Take(list, Start(|lists|, limit))
    ensures Start(|lists|, limit) >= |list| ==> PagesOf(lists, limit) == list
  {
    forall i | 0 <= i < |lists|
      ensures lists[i] == list
    {
      OneListAgain(lists, i, list, q, db, range);
    }
    PagesOfOneList(lists, list, limit);
    TakenWhole(list, Start(|lists|, limit));
  }

  lemma TakenWhole(list: seq<Row>, n: nat)
    ensures n >= |list| ==> Take(list, n) == list
  {
  }

  // ----- rows with equal keys at the end of a page --------------------------------------------

  /** No page ends between rows that may come in any order. */
  ghost predicate CutsBetweenKeys(list: seq<Row>, q: Query, limit: int)
    requires limit > 0
  {
    forall n {:trigger Start(n, limit)} :: 0 < Start(n, limit) < |list| ==>
      Rank(list[Start(n, limit) - 1], q) < Rank(list[Start(n, limit)], q)
  }

  lemma SameUpToPage(list: seq<Row>, other: seq<Row>, q: Query, limit: int, n: nat)
    requires limit > 0 && CutsBetweenKeys(list, q, limit)
    requires multiset(list) == multiset(other) && InOrder(list, q) && InOrder(other, q)
    ensures multiset(Take(list, Start(n, limit))) == multiset(Take(other, Start(n, limit)))
  {
    assert |multiset(list)| == |list| && |multiset(other)| == |other|;
    if Start(n, limit) <= |list| {
      SamePrefix(list, other, q, Start(n, limit));
    }
  }

  /** Pages of different orders have the rows of the list, each once. */
  lemma {:induction false} PagesShareOut(lists: seq<seq<Row>>, list: seq<Row>, q: Query, limit: int)
    requires limit > 0 && CutsBetweenKeys(list, q, limit) && InOrder(list, q)
    requires forall l :: l in lists ==> multiset(l) == multiset(list) && InOrder(l, q)
    ensures multiset(PagesOf(lists, limit)) == multiset(Take(list, Start(|lists|, limit)))
  {
    if lists != [] {
      var n, l := |lists| - 1, Last(lists);
      assert l in lists && forall l :: l in Front(lists) ==> l in lists;
      PagesShareOut(Front(lists), list, q, limit);
      SameUpToPage(list, l, q, limit, n);
      SameUpToPage(list, l, q, limit, n + 1);
      PageGoesOn(l, limit, n);
      assert multiset(Take(l, Start(n, limit)) + PageAt(l, limit, n))
             == multiset(Take(l, Start(n, limit))) + multiset(PageAt(l, limit, n));
    }
  }

  function Swapped(list: seq<Row>, i: nat, j: nat): (r: seq<Row>)
    requires i < j < |list|
    ensures |r| == |list| && r[i] == list[j] && r[j] == list[i] && multiset(r) == multiset(list)
  {
    list[i := list[j]][j := list[i]]
  }

  lemma SwappedInOrder(list: seq<Row>, q: Query, i: nat, j: nat)
    requires InOrder(list, q) && i < j < |list| && Rank(list[i], q) == Rank(list[j], q)
    ensures InOrder(Swapped(list, i, j), q)
  {
    assert forall k :: 0 <= k < |list| ==> Rank(Swapped(list, i, j)[k], q) == Rank(list[k], q);
  }

  /** Rows with equal keys can be listed the other way round as well. */
  lemma SwappedIsListed(list: seq<Row>, q: Query, db: Database, range: Range, i: nat, j: nat)
    requires q.searchProject.None? && MayList(list, q, db, range)
    requires i < j < |list| && Rank(list[i], q) == Rank(list[j], q)
    ensures MayList(Swapped(list, i, j), q, db, range) && Swapped(list, i, j) != list
  {
    MayListExactly(list, q, db, range);
    DifferentRows(list, db, range);
    SwappedInOrder(list, q, i, j);
    var ids :| Groups(ids, db) && list == Rows(ids, db, range);
    OtherOrder(ids, Swapped(list, i, j), db, range);
    MayListExactly(Swapped(list, i, j), q, db, range);
  }

  /** All requests have one list exactly if no two projects have equal keys. */
  lemma OneListExactly(list: seq<Row>, q: Query, db: Database, range: Range)
    requires q.searchProject.None? && MayList(list, q, db, range)
    ensures (forall other :: MayList(other, q, db, range) ==> other == list) <==> DifferentRanks(list, q)
  {
    if DifferentRanks(list, q) {
      forall other | MayList(other, q, db, range)
        ensures other == list
      {
        OnlyOneList(list, other, q, db, range);
      }
    } else {
      var i, j :| 0 <= i < j < |list| && Rank(list[i], q) == Rank(list[j], q);
      SwappedIsListed(list, q, db, range, i, j);
    }
  }

  lemma CountsAddUp(a: seq<Row>, b: seq<Row>, row: Row)
    ensures multiset(a + b)[row] == multiset(a)[row] + multiset(b)[row]
  {
  }

  lemma LastTaken(list: seq<Row>, n: nat)
    requires 0 < n <= |list|
    ensures multiset(Take(list, n))[list[n - 1]] >= 1
  {
    assert Take(list, n)[n - 1] == list[n - 1];
  }

  lemma FirstOfPage(list: seq<Row>, limit: int, n: nat)
    requires limit > 0 && Start(n, limit) < |list|
    ensures multiset(PageAt(list, limit, n))[list[Start(n, limit)]] >= 1
  {
    assert PageAt(list, limit, n)[0] == list[Start(n, limit)];
  }

  /** The last row of a page comes first on the next one if the next request has the two the other way round. */
  lemma {:induction false} RowIsRepeated(lists: seq<seq<Row>>, list: seq<Row>, other: seq<Row>, limit: int, n: nat,
                                         row: Row)
    requires limit > 0 && n < |lists| && (forall i :: 0 <= i < n ==> lists[i] == list) && lists[n] == other
    requires 0 < Start(n, limit) < |list| == |other|
    requires other[Start(n, limit)] == row == list[Start(n, limit) - 1]
    ensures multiset(PagesOf(lists, limit))[row] >= 2
  {
    CountsAddUp(PagesOf(Front(lists), limit), PageAt(Last(lists), limit, |lists| - 1), row);
    if |lists| == n + 1 {
      PagesOfOneList(Front(lists), list, limit);
      LastTaken(list, Start(n, limit));
      FirstOfPage(other, limit, n);
    } else {
      RowIsRepeated(Front(lists), list, other, limit, n, row);
    }
  }

  /** Enough requests, each with a list it can have. */
  ghost predicate Requested(lists: seq<seq<Row>>, size: nat, q: Query, db: Database, range: Range, limit: int)
    requires limit > 0
  {
    Start(|lists|, limit) >= size && forall l :: l in lists ==> MayList(l, q, db, range)
  }

  lemma ListsAreAlike(list: seq<Row>, other: seq<Row>, q: Query, db: Database, range: Range)
    requires q.searchProject.None? && MayList(list, q, db, range) && MayList(other, q, db, range)
    ensures multiset(other) == multiset(list) && InOrder(other, q) && InOrder(list, q)
  {
    MayListExactly(list, q, db, range);
    MayListExactly(other, q, db, range);
    ListsHaveSameRows(other, list, db, range);
  }

  lemma PagesAreComplete(lists: seq<seq<Row>>, list: seq<Row>, q: Query, db: Database, range: Range, limit: int)
    requires limit > 0 && q.searchProject.None? && MayList(list, q, db, range) && CutsBetweenKeys(list, q, limit)
    requires Requested(lists, |list|, q, db, range, limit)
    ensures multiset(PagesOf(lists, limit)) == multiset(list)
  {
    ListsAreAlike(list, list, q, db, range);
    forall l | l in lists
      ensures multiset(l) == multiset(list) && InOrder(l, q)
    {
      ListsAreAlike(list, l, q, db, range);
    }
    PagesShareOut(lists, list, q, limit);
    TakenWhole(list, Start(|lists|, limit));
  }

  /** As many requests as there are rows, one of them with another list. */
  function Requests(list: seq<Row>, other: seq<Row>, n: nat): (lists: seq<seq<Row>>)
    ensures |lists| == |list| && forall l :: l in lists ==> l == list || l == other
    ensures forall i :: 0 <= i < |lists| ==> lists[i] == if i == n then other else list
  {
    seq(|list|, i requires 0 <= i < |list| => if i == n then other else list)
  }

  lemma NotAllOnce(list: seq<Row>, pages: seq<Row>, row: Row, db: Database, range: Range)
    requires OneRowEach(list, db, range) && multiset(pages)[row] >= 2
    ensures multiset(pages) != multiset(list)
  {
    DifferentRows(list, db, range);
    OnceAtMost(list, row);
  }

  lemma RequestsAreListed(list: seq<Row>, other: seq<Row>, n: nat, q: Query, db: Database, range: Range, limit: int)
    requires limit > 0 && MayList(list, q, db, range) && MayList(other, q, db, range)
    ensures Requested(Requests(list, other, n), |list|, q, db, range, limit)
  {
    EnoughPages(list, limit, n);
  }

  /** Requests of which one has the two rows around the end of a page the other way round. */
  lemma PagesRepeat(list: seq<Row>, q: Query, db: Database, range: Range, limit: int, n: nat)
    returns (lists: seq<seq<Row>>)
    requires limit > 0 && q.searchProject.None? && MayList(list, q, db, range)
    requires 0 < Start(n, limit) < |list|
    requires Rank(list[Start(n, limit) - 1], q) == Rank(list[Start(n, limit)], q)
    ensures Requested(lists, |list|, q, db, range, limit)
    ensures multiset(PagesOf(lists, limit)) != multiset(list)
  {
    var b := Start(n, limit);
    var other := Swapped(list, b - 1, b);
    SwappedIsListed(list, q, db, range, b - 1, b);
    lists := Requests(list, other, n);
    RequestsAreListed(list, other, n, q, db, range, limit);
    RowOnBothPages(list, other, limit, n, list[b - 1]);
    MayListExactly(list, q, db, range);
    NotAllOnce(list, PagesOf(lists, limit), list[b - 1], db, range);
  }

  lemma RowOnBothPages(list: seq<Row>, other: seq<Row>, limit: int, n: nat, row: Row)
    requires limit > 0 && 0 < Start(n, limit) < |list| == |other|
    requires other[Start(n, limit)] == row == list[Start(n, limit) - 1]
    ensures multiset(PagesOf(Requests(list, other, n), limit))[row] >= 2
  {
    EnoughPages(list, limit, n);
    RowIsRepeated(Requests(list, other, n), list, other, limit, n, row);
  }

  lemma EnoughPages(list: seq<Row>, limit: int, n: nat)
    requires limit > 0
    ensures Start(|list|, limit) >= |list|
    ensures Start(n, limit) < |list| ==> n < |list|
  {
    AtLeast(|list|, limit);
    AtLeast(n, limit);
  }

  lemma {:induction false} AtLeast(n: nat, limit: int)
    requires limit > 0
    ensures Start(n, limit) >= n
  {
    if n > 0 {
      AtLeast(n - 1, limit);
      OnePageMore(limit, n - 1);
    }
  }

  /** Pages of separate requests have the projects of the list, each once, exactly if none ends between equal keys. */
  lemma PagesAreCompleteExactly(list: seq<Row>, q: Query, db: Database, range: Range, limit: int)
    requires limit > 0 && q.searchProject.None? && MayList(list, q, db, range)
    ensures CutsBetweenKeys(list, q, limit)
            <==> forall lists :: Requested(lists, |list|, q, db, range, limit) ==>
                   multiset(PagesOf(lists, limit)) == multiset(list)
  {
    MayListExactly(list, q, db, range);
    if CutsBetweenKeys(list, q, limit) {
      forall lists | Requested(lists, |list|, q, db, range, limit)
        ensures multiset(PagesOf(lists, limit)) == multiset(list)
      {
        PagesAreComplete(lists, list, q, db, range, limit);
      }
    } else {
      var n: nat :| 0 < Start(n, limit) < |list|
                    && Rank(list[Start(n, limit) - 1], q) >= Rank(list[Start(n, limit)], q);
      var lists := PagesRepeat(list, q, db, range, limit, n);
    }
  }

  /** What `GetUsageData` can answer to a request for page n, by its contract, is page n of a list it may have. */
  lemma AnswerIsAPage(projects: seq<Row>, q: Query, limit: int, n: nat, db: Database, range: Range)
    requires limit > 0
    ensures (exists ids, e :: Groups(ids, db) && Sorts(e)
                              && Page(Listed(Rows(ids, db, range), q, e), Some(Paging(n, limit))) == Ok(projects))
            <==> exists list :: MayList(list, q, db, range) && projects == PageAt(list, limit, n)
  {
    if list :| MayList(list, q, db, range) && projects == PageAt(list, limit, n) {
      var ids, e :| Groups(ids, db) && Sorts(e) && list == Listed(Rows(ids, db, range), q, e);
      assert Page(Listed(Rows(ids, db, range), q, e), Some(Paging(n, limit))) == Ok(projects);
    }
    if ids, e :| Groups(ids, db) && Sorts(e)
                 && Page(Listed(Rows(ids, db, range), q, e), Some(Paging(n, limit))) == Ok(projects) {
      assert PageAt(Listed(Rows(ids, db, range), q, e), limit, n) == projects;
    }
  }

  // ----- a project on two pages ---------------------------------------------------------------

  const ALIKE := Database([Cluster("p1", "cluster", false, true), Cluster("p2", "cluster", false, true)], [])

  const BY_SCHEDULES := Query(Some(0), None, None, Some(Sorting(BySchedules, false)), None)

  lemma TwoGroups(ids: seq<string>)
    requires ids == ["p1", "p2"] || ids == ["p2", "p1"]
    ensures Groups(ids, ALIKE)
  {
    assert ALIKE.clusters[0] in ALIKE.clusters && ALIKE.clusters[1] in ALIKE.clusters;
    assert ids[0] in ids && ids[1] in ids;
  }

  lemma NoSchedules(id: string, range: Range)
    ensures Rank(RowOf(id, ALIKE, range), BY_SCHEDULES) == 0
  {
  }

  lemma TwoProjects(ids: seq<string>, range: Range)
    requires ids == ["p1", "p2"] || ids == ["p2", "p1"]
    ensures MayList(Rows(ids, ALIKE, range), BY_SCHEDULES, ALIKE, range)
  {
    TwoGroups(ids);
    NoSchedules("p1", range);
    NoSchedules("p2", range);
    MayListExactly(Rows(ids, ALIKE, range), BY_SCHEDULES, ALIKE, range);
  }

  lemma SingleRow(list: seq<Row>, n: nat)
    requires n < |list|
    ensures PageAt(list, 1, n) == [list[n]]
  {
    OnePageMore(1, n);
    assert n * 1 == n;
  }

  /** Of two projects without schedules, sorted by schedules, page 0 and page 1 can show the same one. */
  lemma SameProjectTwice(range: Range)
    ensures var a, b := Rows(["p1", "p2"], ALIKE, range), Rows(["p2", "p1"], ALIKE, range);
            && MayList(a, BY_SCHEDULES, ALIKE, range) && MayList(b, BY_SCHEDULES, ALIKE, range)
            && PageAt(a, 1, 0) == PageAt(b, 1, 1)
  {
    TwoProjects(["p1", "p2"], range);
    TwoProjects(["p2", "p1"], range);
    SingleRow(Rows(["p1", "p2"], ALIKE, range), 0);
    SingleRow(Rows(["p2", "p1"], ALIKE, range), 1);
  }
}
