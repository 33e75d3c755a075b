/** What the figures of the usage overview count, by project and in total, and how its list is sorted and cut. */
module UsageFigures {
  import opened Prelude
  import opened Usage
  import opened UsagePages

  /** The positions of the items with a property. */
  ghost function Where<T>(items: seq<T>, p: T -> bool): set<nat> {
    set i: nat | i < |items| && p(items[i])
  }

  lemma WhereOneMore<T>(items: seq<T>, x: T, p: T -> bool)
    ensures Where(items + [x], p) == Where(items, p) + if p(x) then {|items|} else {}
  {
    assert forall i: nat :: i < |items| ==> (items + [x])[i] == items[i];
  }

  lemma {:induction false} FilterCounts<T>(items: seq<T>, p: T -> bool)
    ensures |Filter(items, p)| == |Where(items, p)|
    decreases |items|
  {
    if items == [] {
      assert Where(items, p) == {};
    } else {
      var front, x := Front(items), Last(items);
      assert items == front + [x];
      FilterCounts(front, p);
      FilterConcat(front, [x], p);
      WhereOneMore(front, x, p);
      assert [x][1..] == [];
    }
  }

  /** Filtering twice is filtering by both. */
  lemma {:induction false} FilterTwice<T>(items: seq<T>, p: T -> bool, q: T -> bool, both: T -> bool)
    requires forall x :: both(x) <==> p(x) && q(x)
    ensures Filter(Filter(items, p), q) == Filter(items, both)
  {
    if items != [] {
      FilterTwice(items[1..], p, q, both);
      if p(items[0]) {
        var rest := Filter(items[1..], p);
        assert Filter(items, p) == [items[0]] + rest;
        assert ([items[0]] + rest)[1..] == rest;
      } else {
        assert Filter(items, p) == Filter(items[1..], p);
      }
    }
  }

  lemma CountsBoth<T>(items: seq<T>, p: T -> bool, q: T -> bool, both: T -> bool)
    requires forall x :: both(x) <==> p(x) && q(x)
    ensures |Filter(Filter(items, p), q)| == |Where(items, both)|
  {
    FilterTwice(items, p, q, both);
    FilterCounts(items, both);
  }

  lemma {:induction false} SameTotal<T>(items: seq<T>, a: T -> int, b: T -> int)
    requires forall x :: a(x) == b(x)
    ensures Total(items, a) == Total(items, b)
  {
    if items != [] {
      SameTotal(items[1..], a, b);
    }
  }

  lemma {:induction false} SameTotalOver<T>(items: seq<T>, key: T -> string, a: T -> int, b: T -> int,
                                            keys: set<string>)
    requires forall x :: a(x) == b(x)
    ensures TotalOver(items, key, a, keys) == TotalOver(items, key, b, keys)
  {
    if items != [] {
      SameTotalOver(items[1..], key, a, b, keys);
    }
  }

  lemma {:induction false} TotalOverCounts<T>(items: seq<T>, key: T -> string, one: T -> int, keys: set<string>,
                                              counted: T -> bool)
    requires forall x :: one(x) == 0 || one(x) == 1
    requires forall x :: counted(x) <==> key(x) in keys && one(x) == 1
    ensures TotalOver(items, key, one, keys) == |Filter(items, counted)|
  {
    if items != [] {
      TotalOverCounts(items[1..], key, one, keys, counted);
    }
  }

  // ----- agents -------------------------------------------------------------------------------

  /** A project's row counts the project's clusters that are not removed, by scope and by state. */
  lemma RowAgents(id: string, db: Database, range: Range)
    ensures
      var a, own := RowOf(id, db, range).agents, (c: Cluster) => c.projectID == id;
      && a.ns == |Where(db.clusters, (c: Cluster) => own(c) && c.agentScope == "namespace" && !c.isRemoved)|
      && a.cluster == |Where(db.clusters, (c: Cluster) => own(c) && c.agentScope == "cluster" && !c.isRemoved)|
      && a.total == |Where(db.clusters, (c: Cluster) => own(c) && !c.isRemoved)|
      && a.active == |Where(db.clusters, (c: Cluster) => own(c) && c.isActive && !c.isRemoved)|
  {
    var own := (c: Cluster) => c.projectID == id;
    CountsBoth(db.clusters, own, (c: Cluster) => c.agentScope == "namespace" && !c.isRemoved,
               (c: Cluster) => own(c) && c.agentScope == "namespace" && !c.isRemoved);
    CountsBoth(db.clusters, own, (c: Cluster) => c.agentScope == "cluster" && !c.isRemoved,
               (c: Cluster) => own(c) && c.agentScope == "cluster" && !c.isRemoved);
    CountsBoth(db.clusters, own, (c: Cluster) => !c.isRemoved, (c: Cluster) => own(c) && !c.isRemoved);
    CountsBoth(db.clusters, own, (c: Cluster) => c.isActive && !c.isRemoved,
               (c: Cluster) => own(c) && c.isActive && !c.isRemoved);
  }

  /** The totals count every cluster that is not removed, of whatever project, by scope and by state. */
  lemma TotalAgents(ids: seq<string>, db: Database, range: Range)
    requires Groups(ids, db)
    ensures
      var a := Totals(Rows(ids, db, range)).agents;
      && a.ns == |Where(db.clusters, (c: Cluster) => c.agentScope == "namespace" && !c.isRemoved)|
      && a.cluster == |Where(db.clusters, (c: Cluster) => c.agentScope == "cluster" && !c.isRemoved)|
      && a.total == |Where(db.clusters, (c: Cluster) => !c.isRemoved)|
      && a.active == |Where(db.clusters, (c: Cluster) => c.isActive && !c.isRemoved)|
  {
    AgentTotalsAreConserved(ids, db, range);
    FilterCounts(db.clusters, (c: Cluster) => c.agentScope == "namespace" && !c.isRemoved);
    FilterCounts(db.clusters, (c: Cluster) => c.agentScope == "cluster" && !c.isRemoved);
    FilterCounts(db.clusters, (c: Cluster) => !c.isRemoved);
    FilterCounts(db.clusters, (c: Cluster) => c.isActive && !c.isRemoved);
  }

  /** The number of projects is that of the different projects clusters belong to. */
  lemma ProjectsAreCounted(ids: seq<string>, db: Database, range: Range)
    requires Groups(ids, db)
    ensures Totals(Rows(ids, db, range)).projects == |set c | c in db.clusters :: c.projectID|
  {
    SetOfDistinct(ids);
    var projects := set c | c in db.clusters :: c.projectID;
    forall id
      ensures id in SetOf(ids) <==> id in projects
    {
      assert id in ids <==> exists c :: c in db.clusters && c.projectID == id;
    }
    assert SetOf(ids) == projects;
  }

  lemma {:induction false} SetOfDistinct(ids: seq<string>)
    requires forall i, j :: 0 <= i < j < |ids| ==> ids[i] != ids[j]
    ensures |SetOf(ids)| == |ids|
  {
    if ids != [] {
      SetOfDistinct(ids[1..]);
      assert ids[0] !in SetOf(ids[1..]);
    }
  }

  // ----- workflows ----------------------------------------------------------------------------

  /** How many runs of a workflow were last updated in the time range, and how many experiments those had. */
  ghost function RunsIn(range: Range): Workflow -> int {
    (w: Workflow) => |Where(w.workflowRuns, (r: WorkflowRun) => range.start <= r.lastUpdated <= range.end)|
  }

  function ExperimentsIn(runs: seq<WorkflowRun>, range: Range): int {
    if runs == [] then 0
    else (if range.start <= runs[0].lastUpdated <= range.end then runs[0].totalExperiments else 0)
         + ExperimentsIn(runs[1..], range)
  }

  function ExperimentsOf(range: Range): Workflow -> int {
    (w: Workflow) => ExperimentsIn(w.workflowRuns, range)
  }

  lemma RunsAreCounted(range: Range)
    ensures forall w :: RunCount(range)(w) == RunsIn(range)(w)
    ensures forall w :: ExperimentCount(range)(w) == ExperimentsOf(range)(w)
  {
    forall w: Workflow
      ensures RunCount(range)(w) == RunsIn(range)(w)
    {
      FilterCounts(w.workflowRuns, (r: WorkflowRun) => Within(r.lastUpdated, range));
      SameWhere(w.workflowRuns, (r: WorkflowRun) => Within(r.lastUpdated, range),
                (r: WorkflowRun) => range.start <= r.lastUpdated <= range.end);
    }
    forall w: Workflow
      ensures ExperimentCount(range)(w) == ExperimentsOf(range)(w)
    {
      ExperimentsAreAdded(w.workflowRuns, range, (r: WorkflowRun) => Within(r.lastUpdated, range),
                          (r: WorkflowRun) => r.totalExperiments);
    }
  }

  lemma SameWhere<T>(items: seq<T>, p: T -> bool, q: T -> bool)
    requires forall x :: p(x) <==> q(x)
    ensures Where(items, p) == Where(items, q)
  {
  }

  lemma {:induction false} ExperimentsAreAdded(runs: seq<WorkflowRun>, range: Range, p: WorkflowRun -> bool,
                                               weight: WorkflowRun -> int)
    requires forall r :: p(r) <==> range.start <= r.lastUpdated <= range.end
    requires forall r: WorkflowRun :: weight(r) == r.totalExperiments
    ensures Total(Filter(runs, p), weight) == ExperimentsIn(runs, range)
  {
    if runs != [] {
      ExperimentsAreAdded(runs[1..], range, p, weight);
      var rest := Filter(runs[1..], p);
      if p(runs[0]) {
        assert Filter(runs, p) == [runs[0]] + rest;
        assert ([runs[0]] + rest)[1..] == rest;
      } else {
        assert Filter(runs, p) == rest;
      }
    }
  }

  /** A project's row counts its workflows created, and its runs last updated, in the time range. */
  lemma RowWorkflows(id: string, db: Database, range: Range)
    ensures
      var f, own := RowOf(id, db, range).workflows, (w: Workflow) => w.projectID == id;
      && f.schedules == |Where(db.workflows, (w: Workflow) => own(w) && range.start <= w.createdAt <= range.end)|
      && f.runs == Total(Filter(db.workflows, own), RunsIn(range))
      && f.expRuns == Total(Filter(db.workflows, own), ExperimentsOf(range))
  {
    var own := (w: Workflow) => w.projectID == id;
    WorkflowsOfByWorkflow(Filter(db.workflows, own), range);
    RunsAreCounted(range);
    SameTotal(Filter(db.workflows, own), RunCount(range), RunsIn(range));
    SameTotal(Filter(db.workflows, own), ExperimentCount(range), ExperimentsOf(range));
    CountsBoth(db.workflows, own, (w: Workflow) => Within(w.createdAt, range),
               (w: Workflow) => own(w) && range.start <= w.createdAt <= range.end);
  }

  /** The totals count the workflows and runs of all projects that have a cluster, each once. */
  lemma TotalWorkflows(ids: seq<string>, db: Database, range: Range)
    requires Groups(ids, db)
    ensures
      var f, project := Totals(Rows(ids, db, range)).workflows, (w: Workflow) => w.projectID;
      && f.schedules
         == |Where(db.workflows, (w: Workflow) => w.projectID in ids && range.start <= w.createdAt <= range.end)|
      && f.runs == TotalOver(db.workflows, project, RunsIn(range), SetOf(ids))
      && f.expRuns == TotalOver(db.workflows, project, ExperimentsOf(range), SetOf(ids))
  {
    var project := (w: Workflow) => w.projectID;
    WorkflowTotalsAreConserved(ids, db, range);
    var counted := (w: Workflow) => w.projectID in ids && range.start <= w.createdAt <= range.end;
    TotalOverCounts(db.workflows, WorkflowKey, Scheduled(range), SetOf(ids), counted);
    FilterCounts(db.workflows, counted);
    RunsAreCounted(range);
    SameTotalOver(db.workflows, WorkflowKey, RunCount(range), RunsIn(range), SetOf(ids));
    SameTotalOver(db.workflows, WorkflowKey, ExperimentCount(range), ExperimentsOf(range), SetOf(ids));
    SameKeys(db.workflows, WorkflowKey, project, RunsIn(range), SetOf(ids));
    SameKeys(db.workflows, WorkflowKey, project, ExperimentsOf(range), SetOf(ids));
  }

  lemma {:induction false} SameKeys<T>(items: seq<T>, key: T -> string, other: T -> string, weight: T -> int,
                                       keys: set<string>)
    requires forall x :: key(x) == other(x)
    ensures TotalOver(items, key, weight, keys) == TotalOver(items, other, weight, keys)
  {
    if items != [] {
      SameKeys(items[1..], key, other, weight, keys);
    }
  }

  // ----- sorting and cutting ------------------------------------------------------------------

  /** The figure that was asked for goes up, or down if that was asked for, from a to b. */
  predicate SortedAs(q: Query, a: Row, b: Row) {
    q.sort.Some? ==>
      match q.sort.value
      case Sorting(ByAgents, down) => UpOrDown(down, a.agents.total, b.agents.total)
      case Sorting(BySchedules, down) => UpOrDown(down, a.workflows.schedules, b.workflows.schedules)
      case Sorting(ByWorkflowRuns, down) => UpOrDown(down, a.workflows.runs, b.workflows.runs)
      case Sorting(ByExperimentRuns, down) => UpOrDown(down, a.workflows.expRuns, b.workflows.expRuns)
      case Sorting(OtherField, _) => true
  }

  predicate UpOrDown(down: bool, a: int, b: int) {
    if down then a >= b else a <= b
  }

  lemma RankSorts(q: Query, a: Row, b: Row)
    ensures Rank(a, q) <= Rank(b, q) <==> SortedAs(q, a, b)
  {
  }

  /** What a request can list is the projects in the order that was asked for, and any such list. */
  lemma ListIsSorted(list: seq<Row>, q: Query, db: Database, range: Range)
    requires q.searchProject.None?
    ensures MayList(list, q, db, range) <==>
              OneRowEach(list, db, range) && forall i, j :: 0 <= i < j < |list| ==> SortedAs(q, list[i], list[j])
  {
    MayListExactly(list, q, db, range);
    InOrderExactly(list, q);
  }

  lemma InOrderExactly(list: seq<Row>, q: Query)
    ensures InOrder(list, q) <==> forall i, j :: 0 <= i < j < |list| ==> SortedAs(q, list[i], list[j])
  {
    forall i, j | 0 <= i < j < |list|
      ensures Rank(list[i], q) <= Rank(list[j], q) <==> SortedAs(q, list[i], list[j])
    {
      RankSorts(q, list[i], list[j]);
    }
  }

  /** Page n has the entries from n times the limit on, as many as the limit or as there are. */
  lemma PageHas(list: seq<Row>, limit: int, n: nat)
    requires limit > 0
    ensures var page, start := PageAt(list, limit, n), n * limit;
            && start >= 0
            && |page| == (if |list| <= start then 0 else if |list| - start < limit then |list| - start else limit)
            && forall i :: 0 <= i < |page| ==> page[i] == list[start + i]
  {
    OnePageMore(limit, n);
  }
}
