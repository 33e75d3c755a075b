/**
 The usage overview: clusters grouped by project and joined with workflows, one row per project, and from
 the rows a page of projects, a count of matching projects, and totals. Stages of the aggregation are
 list functions here.
 */
module Usage {
  import opened Prelude

  datatype Cluster = Cluster(projectID: string, agentScope: string, isRemoved: bool, isActive: bool)

  datatype WorkflowRun = WorkflowRun(totalExperiments: int, lastUpdated: int)

  datatype Workflow = Workflow(projectID: string, createdAt: int, workflowRuns: seq<WorkflowRun>)

  datatype Database = Database(clusters: seq<Cluster>, workflows: seq<Workflow>)

  datatype AgentStat = AgentStat(ns: int, cluster: int, total: int, active: int)

  datatype WorkflowStat = WorkflowStat(schedules: int, runs: int, expRuns: int)

  /** A project's row; grouping keeps only the id, so a row has no name. */
  datatype Row = Row(id: string, name: Option<string>, agents: AgentStat, workflows: WorkflowStat)

  // ----- list functions -----------------------------------------------------------------------

  function Filter<T>(s: seq<T>, p: T -> bool): (r: seq<T>)
    ensures |r| <= |s|
  {
    if s == [] then [] else (if p(s[0]) then [s[0]] else []) + Filter(s[1..], p)
  }

  function Total<T>(s: seq<T>, weight: T -> int): int {
    if s == [] then 0 else weight(s[0]) + Total(s[1..], weight)
  }

  function AllRuns(ws: seq<Workflow>): seq<WorkflowRun> {
    if ws == [] then [] else ws[0].workflowRuns + AllRuns(ws[1..])
  }

  // ----- one row per project ------------------------------------------------------------------

  /** The time range in question. */
  datatype Range = Range(start: int, end: int)

  predicate Within(t: int, range: Range) {
    range.start <= t <= range.end
  }

  function AgentsOf(own: seq<Cluster>): AgentStat {
    AgentStat(|Filter(own, (c: Cluster) => c.agentScope == "namespace" && !c.isRemoved)|,
              |Filter(own, (c: Cluster) => c.agentScope == "cluster" && !c.isRemoved)|,
              |Filter(own, (c: Cluster) => !c.isRemoved)|,
              |Filter(own, (c: Cluster) => c.isActive && !c.isRemoved)|)
  }

  function WorkflowsOf(own: seq<Workflow>, range: Range): WorkflowStat {
    var runs := Filter(AllRuns(own), (r: WorkflowRun) => Within(r.lastUpdated, range));
    WorkflowStat(|Filter(own, (w: Workflow) => Within(w.createdAt, range))|, |runs|,
                 Total(runs, (r: WorkflowRun) => r.totalExperiments))
  }

  function RowOf(id: string, db: Database, range: Range): Row {
    Row(id, None, AgentsOf(Filter(db.clusters, (c: Cluster) => c.projectID == id)),
        WorkflowsOf(Filter(db.workflows, (w: Workflow) => w.projectID == id), range))
  }

  function Rows(ids: seq<string>, db: Database, range: Range): (rows: seq<Row>)
    ensures |rows| == |ids| && forall i :: 0 <= i < |ids| ==> rows[i] == RowOf(ids[i], db, range)
  {
    if ids == [] then [] else [RowOf(ids[0], db, range)] + Rows(ids[1..], db, range)
  }

  /** ids is what grouping yields, in whatever order: each project of a cluster once. */
  ghost predicate Groups(ids: seq<string>, db: Database) {
    && (forall i, j :: 0 <= i < j < |ids| ==> ids[i] != ids[j])
    && (forall id :: id in ids <==> exists c :: c in db.clusters && c.projectID == id)
  }

  // ----- the query ----------------------------------------------------------------------------

  datatype Field = ByAgents | BySchedules | ByWorkflowRuns | ByExperimentRuns | OtherField

  datatype Sorting = Sorting(field: Field, descending: bool)

  datatype Paging = Paging(page: int, limit: int)

  /** Times that are no numbers are None; without an end date the range ends now. */
  datatype Query = Query(startDate: Option<int>, endDate: Option<Option<int>>, searchProject: Option<string>,
                         sort: Option<Sorting>, pagination: Option<Paging>)

  datatype Stage = Match(regex: string) | Sort(by_: Sorting) | Skip(n: int) | Limit(n: int) | Hide | CountEntries

  datatype Error = InvalidStartTime | InvalidEndTime | InvalidSortField | DatabaseError | NoTotalCount | NoEntries

  function KeyOf(row: Row, field: Field): int {
    match field
    case ByAgents => row.agents.total
    case BySchedules => row.workflows.schedules
    case ByWorkflowRuns => row.workflows.runs
    case ByExperimentRuns => row.workflows.expRuns
    case OtherField => 0
  }

  /** How the database sorts and matches; rows with equal keys may come in any order. */
  datatype Engine = Engine(sorted: (Sorting, seq<Row>) -> seq<Row>, matches: (string, string) -> bool)

  ghost predicate Sorts(e: Engine) {
    forall s, rows :: multiset(e.sorted(s, rows)) == multiset(rows) && Ordered(s, e.sorted(s, rows))
  }

  ghost predicate Ordered(s: Sorting, rows: seq<Row>) {
    forall i, j :: 0 <= i < j < |rows| ==>
      if s.descending then KeyOf(rows[i], s.field) >= KeyOf(rows[j], s.field)
      else KeyOf(rows[i], s.field) <= KeyOf(rows[j], s.field)
  }

  /** A missing name matches no expression. */
  function Matching(rows: seq<Row>, regex: string, e: Engine): seq<Row> {
    Filter(rows, (r: Row) => r.name.Some? && e.matches(regex, r.name.value))
  }

  function Take(rows: seq<Row>, n: int): seq<Row>
    requires n >= 0
  {
    if n <= |rows| then rows[..n] else rows
  }

  function Drop(rows: seq<Row>, n: int): seq<Row>
    requires n >= 0
  {
    if n <= |rows| then rows[n..] else []
  }

  /** What a pipeline of stages makes of the rows; a negative skip and a limit below one are refused. */
  function Through(stages: seq<Stage>, rows: seq<Row>, e: Engine): Result<seq<Row>, Error> {
    if stages == [] then Ok(rows)
    else
      match stages[0]
      case Match(regex) => Through(stages[1..], Matching(rows, regex, e), e)
      case Sort(s) => Through(stages[1..], e.sorted(s, rows), e)
      case Skip(n) => if n < 0 then Err(DatabaseError) else Through(stages[1..], Drop(rows, n), e)
      case Limit(n) => if n <= 0 then Err(DatabaseError) else Through(stages[1..], Take(rows, n), e)
      case Hide => Through(stages[1..], rows, e)
      case CountEntries => Through(stages[1..], rows, e)
  }

  function Found(rows: seq<Row>, q: Query, e: Engine): seq<Row> {
    if q.searchProject.Some? then Matching(rows, q.searchProject.value, e) else rows
  }

  function Arranged(rows: seq<Row>, q: Query, e: Engine): seq<Row> {
    if q.sort.Some? then e.sorted(q.sort.value, rows) else rows
  }

  /** The list a query's pages are pages of. */
  function Listed(rows: seq<Row>, q: Query, e: Engine): seq<Row> {
    Arranged(Found(rows, q, e), q, e)
  }

  /** The database takes no negative skip and no limit below one. */
  predicate Cuts(paging: Option<Paging>) {
    paging.Some? ==> paging.value.page * paging.value.limit >= 0 && paging.value.limit > 0
  }

  predicate DatesAreNumbers(q: Query) {
    q.startDate.Some? && q.endDate != Some(None)
  }

  predicate Readable(q: Query) {
    DatesAreNumbers(q) && (q.sort.Some? ==> !q.sort.value.field.OtherField?)
  }

  function Page(list: seq<Row>, paging: Option<Paging>): Result<seq<Row>, Error> {
    if paging.None? then Ok(list)
    else if !Cuts(paging) then Err(DatabaseError)
    else Ok(Take(Drop(list, paging.value.page * paging.value.limit), paging.value.limit))
  }

  datatype TotalCount = TotalCount(projects: int, agents: AgentStat, workflows: WorkflowStat)

  function Totals(rows: seq<Row>): TotalCount {
    TotalCount(|rows|,
               AgentStat(Total(rows, (r: Row) => r.agents.ns), Total(rows, (r: Row) => r.agents.cluster),
                         Total(rows, (r: Row) => r.agents.total), Total(rows, (r: Row) => r.agents.active)),
               WorkflowStat(Total(rows, (r: Row) => r.workflows.schedules), Total(rows, (r: Row) => r.workflows.runs),
                            Total(rows, (r: Row) => r.workflows.expRuns)))
  }

  datatype Response = Response(projects: seq<Row>, totalCount: TotalCount, totalEntries: int)

  /** What the aggregation returns; an empty group or count has no document. */
  datatype AggregateData = AggregateData(projects: seq<Row>, totalCount: seq<TotalCount>, pagination: seq<int>)

  /** Whether the range is the one a query asks for. */
  predicate Asks(q: Query, now: int, range: Range) {
    q.startDate == Some(range.start) && if q.endDate.Some? then q.endDate.value == Some(range.end) else range.end == now
  }

  function SearchStages(q: Query): seq<Stage> {
    if q.searchProject.Some? then [Match(q.searchProject.value)] else []
  }

  function SortStages(q: Query): seq<Stage> {
    if q.sort.Some? then [Sort(q.sort.value)] else []
  }

  function CutStages(q: Query): seq<Stage> {
    if q.pagination.Some? then
      [Skip(q.pagination.value.page * q.pagination.value.limit), Limit(q.pagination.value.limit)]
    else []
  }

  /** Builds the stages for the page of projects and for the count of entries, one by one. */
  method BuildStages(q: Query) returns (ok: bool, project: seq<Stage>, pagination: seq<Stage>)
    ensures ok <==> (q.sort.Some? ==> !q.sort.value.field.OtherField?)
    ensures ok ==> project == SearchStages(q) + SortStages(q) + CutStages(q) + [Hide]
    ensures ok ==> pagination == SearchStages(q) + [CountEntries]
  {
    pagination := [];
    project := [];
    if q.searchProject.Some? {
      pagination := pagination + [Match(q.searchProject.value)];
      project := project + [Match(q.searchProject.value)];
    }
    if q.sort.Some? {
      if q.sort.value.field == OtherField {
        return false, [], [];
      }
      project := project + [Sort(q.sort.value)];
    }
    if q.pagination.Some? {
      var paging := q.pagination.value;
      project := project + [Skip(paging.page * paging.limit), Limit(paging.limit)];
    }
    project := project + [Hide];
    pagination := pagination + [CountEntries];
    ok := true;
  }

  /** Reads the request, and runs the stages on the rows of the projects. */
  method UsageHelper(q: Query, now: int, db: Database, ids: seq<string>, e: Engine)
    returns (data: Result<AggregateData, Error>, ghost range: Range)
    requires Sorts(e)
    ensures data.Err? ==>
              data.error == if q.startDate.None? then InvalidStartTime
                            else if q.endDate == Some(None) then InvalidEndTime
                            else if !Readable(q) then InvalidSortField
                            else DatabaseError
    ensures data.Ok? <==> Readable(q) && Cuts(q.pagination)
    ensures data.Ok? ==>
              var rows := Rows(ids, db, range);
              && Asks(q, now, range)
              && Page(Listed(rows, q, e), q.pagination) == Ok(data.value.projects)
              && data.value.totalCount == (if rows == [] then [] else [Totals(rows)])
              && data.value.pagination == (if Found(rows, q, e) == [] then [] else [|Listed(rows, q, e)|])
  {
    range := Range(0, 0);
    if q.startDate.None? {
      return Err(InvalidStartTime), range;
    }
    var endTime := now;
    if q.endDate.Some? {
      if q.endDate.value.None? {
        return Err(InvalidEndTime), range;
      }
      endTime := q.endDate.value.value;
    }
    var period := Range(q.startDate.value, endTime);
    range := period;
    var ok, project, pagination := BuildStages(q);
    if !ok {
      return Err(InvalidSortField), range;
    }
    var rows := Rows(ids, db, period);
    ProjectsYield(rows, q, e);
    EntriesYield(rows, q, e);
    var projects := Through(project, rows, e);
    var entries := Through(pagination, rows, e);
    if projects.Err? {
      return Err(DatabaseError), range;
    }
    data := Ok(AggregateData(projects.value, if rows == [] then [] else [Totals(rows)],
                             if entries.value == [] then [] else [|entries.value|]));
  }

  /** Puts the answer together; a group or count without a document is reported as an error. */
  method GetUsageData(q: Query, now: int, db: Database, ids: seq<string>, e: Engine)
    returns (answer: Result<Response, Error>, ghost range: Range)
    requires Groups(ids, db) && Sorts(e)
    ensures answer == Err(InvalidStartTime) <==> q.startDate.None?
    ensures answer == Err(InvalidEndTime) <==> q.startDate.Some? && q.endDate == Some(None)
    ensures answer == Err(InvalidSortField) <==>
            q.startDate.Some? && q.endDate != Some(None) && q.sort.Some? && q.sort.value.field.OtherField?
    ensures answer == Err(DatabaseError) <==>
            q.startDate.Some? && q.endDate != Some(None) && (q.sort.Some? ==> !q.sort.value.field.OtherField?)
            && q.pagination.Some?
            && (q.pagination.value.page * q.pagination.value.limit < 0 || q.pagination.value.limit <= 0)
    ensures answer == Err(NoTotalCount) <==> Readable(q) && Cuts(q.pagination) && db.clusters == []
    ensures answer == Err(NoEntries) <==>
            Readable(q) && Cuts(q.pagination) && db.clusters != [] && q.searchProject.Some?
    ensures answer.Ok? ==>
              var rows := Rows(ids, db, range);
              && q.startDate == Some(range.start)
              && range.end == (if q.endDate.Some? then q.endDate.value.value else now)
              && Page(Listed(rows, q, e), q.pagination) == Ok(answer.value.projects)
              && answer.value.totalCount == Totals(rows)
              && answer.value.totalEntries == |Listed(rows, q, e)|
  {
    var data: Result<AggregateData, Error>;
    data, range := UsageHelper(q, now, db, ids, e);
    if data.Err? {
      return Err(data.error), range;
    }
    NoClustersNoGroups(ids, db);
    NothingFound(Rows(ids, db, range), q, e);
    if |data.value.totalCount| != 1 {
      return Err(NoTotalCount), range;
    }
    if |data.value.pagination| != 1 {
      return Err(NoEntries), range;
    }
    answer := Ok(Response(data.value.projects, data.value.totalCount[0], data.value.pagination[0]));
  }

  /** No entries are found exactly if there are none or a search is made. */
  lemma NothingFound(rows: seq<Row>, q: Query, e: Engine)
    requires forall r :: r in rows ==> r.name.None?
    ensures Found(rows, q, e) == [] <==> rows == [] || q.searchProject.Some?
  {
    if q.searchProject.Some? {
      SearchFindsNothing(rows, q.searchProject.value, e);
    }
  }

  lemma NoClustersNoGroups(ids: seq<string>, db: Database)
    requires Groups(ids, db)
    ensures db.clusters == [] <==> ids == []
  {
    assert ids != [] ==> ids[0] in ids;
    assert db.clusters != [] ==> db.clusters[0].projectID in ids;
  }

  /** Grouping keeps no names, so searching for one finds no row. */
  lemma {:induction false} SearchFindsNothing(rows: seq<Row>, regex: string, e: Engine)
    requires forall r :: r in rows ==> r.name.None?
    ensures Matching(rows, regex, e) == []
  {
    if rows != [] {
      SearchFindsNothing(rows[1..], regex, e);
      assert rows[0] in rows;
    }
  }

  /** The stages built for the projects yield the page. */
  lemma ProjectsYield(rows: seq<Row>, q: Query, e: Engine)
    ensures Through(SearchStages(q) + SortStages(q) + CutStages(q) + [Hide], rows, e)
            == Page(Listed(rows, q, e), q.pagination)
  {
    var cut := CutStages(q) + [Hide];
    assert SearchStages(q) + SortStages(q) + CutStages(q) + [Hide] == SearchStages(q) + (SortStages(q) + cut);
    ThroughSearch(q, rows, e, SortStages(q) + cut);
    ThroughSort(q, Found(rows, q, e), e, cut);
    ThroughCut(q, Arranged(Found(rows, q, e), q, e), e);
  }

  /** The stages built for the count of entries yield as many as the whole list has. */
  lemma EntriesYield(rows: seq<Row>, q: Query, e: Engine)
    requires Sorts(e)
    ensures Through(SearchStages(q) + [CountEntries], rows, e) == Ok(Found(rows, q, e))
    ensures |Found(rows, q, e)| == |Listed(rows, q, e)|
  {
    ThroughSearch(q, rows, e, [CountEntries]);
    assert Through([CountEntries], Found(rows, q, e), e) == Through([], Found(rows, q, e), e);
    if q.sort.Some? {
      SortingKeepsTheNumber(e, q.sort.value, Found(rows, q, e));
    }
  }

  lemma SortingKeepsTheNumber(e: Engine, s: Sorting, rows: seq<Row>)
    requires Sorts(e)
    ensures |e.sorted(s, rows)| == |rows|
  {
    assert |e.sorted(s, rows)| == |multiset(e.sorted(s, rows))| == |multiset(rows)| == |rows|;
  }

  lemma ThroughSearch(q: Query, rows: seq<Row>, e: Engine, more: seq<Stage>)
    ensures Through(SearchStages(q) + more, rows, e) == Through(more, Found(rows, q, e), e)
  {
    assert q.searchProject.Some? ==> (SearchStages(q) + more)[1..] == more;
    assert q.searchProject.None? ==> SearchStages(q) + more == more;
  }

  lemma ThroughSort(q: Query, rows: seq<Row>, e: Engine, more: seq<Stage>)
    ensures Through(SortStages(q) + more, rows, e) == Through(more, Arranged(rows, q, e), e)
  {
    assert q.sort.Some? ==> (SortStages(q) + more)[1..] == more;
    assert q.sort.None? ==> SortStages(q) + more == more;
  }

  lemma ThroughCut(q: Query, rows: seq<Row>, e: Engine)
    ensures Through(CutStages(q) + [Hide], rows, e) == Page(rows, q.pagination)
  {
    assert forall rs :: Through([Hide], rs, e) == Through([], rs, e) == Ok(rs);
    if q.pagination.Some? {
      var n, limit := q.pagination.value.page * q.pagination.value.limit, q.pagination.value.limit;
      var stages := [Skip(n), Limit(limit)] + [Hide];
      assert stages[1..] == [Limit(limit), Hide];
      assert stages[1..][1..] == [Hide];
    } else {
      assert [] + [Hide] == [Hide];
    }
  }

  // ----- conservation -------------------------------------------------------------------------

  /** The weights of the items whose key is among the given ones. */
  function TotalOver<T>(items: seq<T>, key: T -> string, weight: T -> int, keys: set<string>): int {
    if items == [] then 0
    else (if key(items[0]) in keys then weight(items[0]) else 0) + TotalOver(items[1..], key, weight, keys)
  }

  lemma {:induction false} TotalOverSplits<T>(items: seq<T>, key: T -> string, weight: T -> int, x: string,
                                              keys: set<string>)
    requires x !in keys
    ensures TotalOver(items, key, weight, {x} + keys)
            == TotalOver(items, key, weight, {x}) + TotalOver(items, key, weight, keys)
  {
    if items != [] {
      TotalOverSplits(items[1..], key, weight, x, keys);
    }
  }

  lemma {:induction false} TotalOverNone<T>(items: seq<T>, key: T -> string, weight: T -> int)
    ensures TotalOver(items, key, weight, {}) == 0
  {
    if items != [] {
      TotalOverNone(items[1..], key, weight);
    }
  }

  lemma {:induction false} TotalOverAll<T>(items: seq<T>, key: T -> string, weight: T -> int, keys: set<string>)
    requires forall x :: x in items ==> key(x) in keys
    ensures TotalOver(items, key, weight, keys) == Total(items, weight)
  {
    if items != [] {
      assert items[0] in items;
      TotalOverAll(items[1..], key, weight, keys);
    }
  }

  /** Joining by key and adding up is adding up what has that key. */
  lemma {:induction false} JoinedTotal<T>(items: seq<T>, key: T -> string, weight: T -> int, x: string, has: T -> bool)
    requires forall y :: has(y) <==> key(y) == x
    ensures Total(Filter(items, has), weight) == TotalOver(items, key, weight, {x})
  {
    if items != [] {
      JoinedTotal(items[1..], key, weight, x, has);
      var rest := Filter(items[1..], has);
      if has(items[0]) {
        assert Filter(items, has) == [items[0]] + rest;
        assert ([items[0]] + rest)[1..] == rest;
      } else {
        assert Filter(items, has) == rest;
      }
    }
  }

  function SetOf(ids: seq<string>): (r: set<string>)
    ensures forall x :: x in r <==> x in ids
  {
    if ids == [] then {} else {ids[0]} + SetOf(ids[1..])
  }

  /** If a figure of each row is the total over the row's project, its sum over the rows is the total over them all. */
  lemma {:induction false} RowsPartition<T>(ids: seq<string>, db: Database, range: Range, figure: Row -> int,
                                            items: seq<T>, key: T -> string, weight: T -> int)
    requires forall i, j :: 0 <= i < j < |ids| ==> ids[i] != ids[j]
    requires forall id :: figure(RowOf(id, db, range)) == TotalOver(items, key, weight, {id})
    ensures Total(Rows(ids, db, range), figure) == TotalOver(items, key, weight, SetOf(ids))
  {
    if ids == [] {
      TotalOverNone(items, key, weight);
    } else {
      RowsPartition(ids[1..], db, range, figure, items, key, weight);
      var rows := Rows(ids, db, range);
      assert rows == [RowOf(ids[0], db, range)] + Rows(ids[1..], db, range);
      assert rows[1..] == Rows(ids[1..], db, range);
      assert ids[0] !in SetOf(ids[1..]);
      TotalOverSplits(items, key, weight, ids[0], SetOf(ids[1..]));
    }
  }

  /** The size of a filtered list is the total of ones. */
  lemma {:induction false} SizeIsTotal<T>(s: seq<T>, p: T -> bool, one: T -> int)
    requires forall x :: one(x) == if p(x) then 1 else 0
    ensures |Filter(s, p)| == Total(s, one)
  {
    if s != [] {
      SizeIsTotal(s[1..], p, one);
    }
  }

  function ClusterKey(c: Cluster): string {
    c.projectID
  }

  function WorkflowKey(w: Workflow): string {
    w.projectID
  }

  /** A figure that counts a project's clusters with some property sums up to all such clusters, each once. */
  lemma ClusterFigureIsConserved(ids: seq<string>, db: Database, range: Range, figure: Row -> int,
                                 p: Cluster -> bool)
    requires Groups(ids, db)
    requires forall id :: figure(RowOf(id, db, range)) ==
                          |Filter(Filter(db.clusters, (c: Cluster) => c.projectID == id), p)|
    ensures Total(Rows(ids, db, range), figure) == |Filter(db.clusters, p)|
  {
    var one := (c: Cluster) => if p(c) then 1 else 0;
    forall id
      ensures figure(RowOf(id, db, range)) == TotalOver(db.clusters, ClusterKey, one, {id})
    {
      var has := (c: Cluster) => c.projectID == id;
      SizeIsTotal(Filter(db.clusters, has), p, one);
      JoinedTotal(db.clusters, ClusterKey, one, id, has);
    }
    RowsPartition(ids, db, range, figure, db.clusters, ClusterKey, one);
    TotalOverAll(db.clusters, ClusterKey, one, SetOf(ids));
    SizeIsTotal(db.clusters, p, one);
  }

  /** The agent totals count every cluster that is not removed exactly once, whatever the order of the groups. */
  lemma AgentTotalsAreConserved(ids: seq<string>, db: Database, range: Range)
    requires Groups(ids, db)
    ensures Totals(Rows(ids, db, range)).agents == AgentsOf(db.clusters)
  {
    ClusterFigureIsConserved(ids, db, range, (r: Row) => r.agents.ns,
                             (c: Cluster) => c.agentScope == "namespace" && !c.isRemoved);
    ClusterFigureIsConserved(ids, db, range, (r: Row) => r.agents.cluster,
                             (c: Cluster) => c.agentScope == "cluster" && !c.isRemoved);
    ClusterFigureIsConserved(ids, db, range, (r: Row) => r.agents.total, (c: Cluster) => !c.isRemoved);
    ClusterFigureIsConserved(ids, db, range, (r: Row) => r.agents.active,
                             (c: Cluster) => c.isActive && !c.isRemoved);
  }

  /** A figure that totals a weight over a project's workflows sums up to the workflows of the grouped projects. */
  lemma WorkflowFigureIsConserved(ids: seq<string>, db: Database, range: Range, figure: Row -> int,
                                  weight: Workflow -> int)
    requires Groups(ids, db)
    requires forall id :: figure(RowOf(id, db, range)) ==
                          Total(Filter(db.workflows, (w: Workflow) => w.projectID == id), weight)
    ensures Total(Rows(ids, db, range), figure) == TotalOver(db.workflows, WorkflowKey, weight, SetOf(ids))
  {
    forall id
      ensures figure(RowOf(id, db, range)) == TotalOver(db.workflows, WorkflowKey, weight, {id})
    {
      JoinedTotal(db.workflows, WorkflowKey, weight, id, (w: Workflow) => w.projectID == id);
    }
    RowsPartition(ids, db, range, figure, db.workflows, WorkflowKey, weight);
  }

  lemma {:induction false} FilterConcat<T>(a: seq<T>, b: seq<T>, p: T -> bool)
    ensures Filter(a + b, p) == Filter(a, p) + Filter(b, p)
  {
    if a == [] {
      assert a + b == b;
    } else {
      var first := if p(a[0]) then [a[0]] else [];
      assert (a + b)[1..] == a[1..] + b;
      FilterConcat(a[1..], b, p);
      assert Filter(a + b, p) == first + (Filter(a[1..], p) + Filter(b, p));
      assert first + (Filter(a[1..], p) + Filter(b, p)) == (first + Filter(a[1..], p)) + Filter(b, p);
    }
  }

  lemma {:induction false} TotalConcat<T>(a: seq<T>, b: seq<T>, weight: T -> int)
    ensures Total(a + b, weight) == Total(a, weight) + Total(b, weight)
  {
    if a == [] {
      assert a + b == b;
    } else {
      assert (a + b)[1..] == a[1..] + b;
      TotalConcat(a[1..], b, weight);
    }
  }

  /** Concatenating the runs of workflows first, or totalling workflow by workflow, makes no difference. */
  lemma {:induction false} RunsByWorkflow(ws: seq<Workflow>, p: WorkflowRun -> bool, weight: WorkflowRun -> int,
                                          count: Workflow -> int, sum: Workflow -> int)
    requires forall w :: count(w) == |Filter(w.workflowRuns, p)|
    requires forall w :: sum(w) == Total(Filter(w.workflowRuns, p), weight)
    ensures |Filter(AllRuns(ws), p)| == Total(ws, count)
    ensures Total(Filter(AllRuns(ws), p), weight) == Total(ws, sum)
  {
    if ws != [] {
      RunsByWorkflow(ws[1..], p, weight, count, sum);
      FilterConcat(ws[0].workflowRuns, AllRuns(ws[1..]), p);
      TotalConcat(Filter(ws[0].workflowRuns, p), Filter(AllRuns(ws[1..]), p), weight);
    }
  }

  /** What one workflow contributes to the figures. */
  function Scheduled(range: Range): Workflow -> int {
    (w: Workflow) => if Within(w.createdAt, range) then 1 else 0
  }

  function RunCount(range: Range): Workflow -> int {
    (w: Workflow) => |Filter(w.workflowRuns, (r: WorkflowRun) => Within(r.lastUpdated, range))|
  }

  function ExperimentCount(range: Range): Workflow -> int {
    (w: Workflow) => Total(Filter(w.workflowRuns, (r: WorkflowRun) => Within(r.lastUpdated, range)),
                           (r: WorkflowRun) => r.totalExperiments)
  }

  lemma WorkflowsOfByWorkflow(ws: seq<Workflow>, range: Range)
    ensures WorkflowsOf(ws, range) == WorkflowStat(Total(ws, Scheduled(range)), Total(ws, RunCount(range)),
                                                   Total(ws, ExperimentCount(range)))
  {
    SizeIsTotal(ws, (w: Workflow) => Within(w.createdAt, range), Scheduled(range));
    RunsByWorkflow(ws, (r: WorkflowRun) => Within(r.lastUpdated, range), (r: WorkflowRun) => r.totalExperiments,
                   RunCount(range), ExperimentCount(range));
  }

  /** The workflow totals are those of all workflows of the grouped projects, each counted once. */
  lemma WorkflowTotalsAreConserved(ids: seq<string>, db: Database, range: Range)
    requires Groups(ids, db)
    ensures var t := Totals(Rows(ids, db, range)).workflows;
            && t.schedules == TotalOver(db.workflows, WorkflowKey, Scheduled(range), SetOf(ids))
            && t.runs == TotalOver(db.workflows, WorkflowKey, RunCount(range), SetOf(ids))
            && t.expRuns == TotalOver(db.workflows, WorkflowKey, ExperimentCount(range), SetOf(ids))
  {
    forall id {:trigger RowOf(id, db, range)}
      ensures RowOf(id, db, range).workflows ==
              var own := Filter(db.workflows, (w: Workflow) => w.projectID == id);
              WorkflowStat(Total(own, Scheduled(range)), Total(own, RunCount(range)),
                           Total(own, ExperimentCount(range)))
    {
      WorkflowsOfByWorkflow(Filter(db.workflows, (w: Workflow) => w.projectID == id), range);
    }
    WorkflowFigureIsConserved(ids, db, range, (r: Row) => r.workflows.schedules, Scheduled(range));
    WorkflowFigureIsConserved(ids, db, range, (r: Row) => r.workflows.runs, RunCount(range));
    WorkflowFigureIsConserved(ids, db, range, (r: Row) => r.workflows.expRuns, ExperimentCount(range));
  }

  /** Namespace and cluster agents do not overlap, and none of the figures exceeds the total. */
  lemma {:induction false} AgentsAddUp(own: seq<Cluster>)
    ensures var a := AgentsOf(own);
            0 <= a.ns && 0 <= a.cluster && a.ns + a.cluster <= a.total && 0 <= a.active <= a.total
  {
    if own != [] {
      AgentsAddUp(own[1..]);
    }
  }

  // ----- a search that fails ------------------------------------------------------------------

  const ONE_CLUSTER := Database([Cluster("p1", "cluster", false, true)], [])

  const SEARCH := Query(Some(0), None, Some("p1"), None, None)

  /** Searching for the only project there is. */
  method SearchForTheOnlyProject(now: int, e: Engine) returns (answer: Result<Response, Error>)
    requires Sorts(e)
    ensures answer == Err(NoEntries)
  {
    assert ONE_CLUSTER.clusters[0] in ONE_CLUSTER.clusters;
    assert Groups(["p1"], ONE_CLUSTER);
    ghost var range;
    answer, range := GetUsageData(SEARCH, now, ONE_CLUSTER, ["p1"], e);
  }
}
