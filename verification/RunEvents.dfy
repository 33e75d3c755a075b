/**
 The subscriber's view of workflow runs: the records it streams, how a chaos engine's state
 becomes chaos data, and the two handlers that build an event out of what the cluster reports.
 */
module RunEvents {
  import opened Prelude
  import opened Text

  datatype ChaosData = ChaosData(
    engineUID: string, engineContext: string, engineName: string, namespace: string,
    experimentName: string, experimentStatus: string, lastUpdatedAt: string,
    experimentVerdict: string, experimentPod: string, runnerPod: string,
    probeSuccessPercentage: string, failStep: string)

  datatype Node = Node(
    name: string, phase: string, message: string, startedAt: string, finishedAt: string,
    children: seq<string>, nodeType: string, chaosExp: Option<ChaosData>)

  /** What reading an absent key of a node map yields. */
  const ZERO_NODE := Node("", "", "", "", "", [], "", None)

  type Nodes = map<string, Node>

  /** The scalar fields of an event. */
  datatype Run = Run(
    workflowType: string, workflowID: string, eventType: string, uid: string, namespace: string,
    name: string, creationTimestamp: string, phase: string, message: string, startedAt: string,
    finishedAt: string, executedBy: string)

  /** An event; N is `Nodes` for a plain value and `NodeMap` for the record the program passes around. */
  datatype Event<N> = Event(run: Run, nodes: N)

  /**
   A node map is shared: every copy of an event record refers to the same one. A nil map reads as an
   empty one and cannot be written.
   */
  class NodeMap {
    const isNil: bool
    var m: Nodes

    constructor (isNil: bool)
      ensures m == map[] && this.isNil == isNil
    {
      this.isNil := isNil;
      m := map[];
    }
  }

  type EventRecord = Event<NodeMap>

  /** The value an event record stands for at this moment. */
  function View(r: EventRecord): Event<Nodes>
    reads r.nodes
  {
    Event(r.run, r.nodes.m)
  }

  predicate Failing(n: Node) {
    n.chaosExp.Some? && ToLower(n.chaosExp.value.experimentVerdict) == "fail"
  }

  /** A node whose verdict is "fail" is shown as failed, and so is its run. */
  ghost predicate FailShown(e: Event<Nodes>) {
    forall k :: k in e.nodes && Failing(e.nodes[k]) ==> e.nodes[k].phase == "Failed" && e.run.phase == "Failed"
  }

  /** Seconds since the epoch as text; times before the epoch (the zero time) become empty. */
  function StrConvTime(time: int): (r: string)
    ensures r == "" <==> time < 0
  {
    if time < 0 then "" else Decimal(time)
  }

  // ----- chaos data ---------------------------------------------------------------------------

  datatype Experiment = Experiment(
    name: string, expPod: string, runner: string, status: string, verdict: string, lastUpdateTime: int)

  datatype ChaosResult = ChaosResult(probeSuccessPercentage: string, failStep: string)

  datatype Engine = Engine(
    uid: string, context: string, createdAt: int, engineStatus: string,
    experiments: seq<Experiment>, result: Option<ChaosResult>)

  /** What the cluster answers while one handler runs. */
  datatype Cluster = Cluster(
    engine: (string, string) -> Option<Engine>,
    generatedName: string -> Option<string>)

  function GetChaosData(startedAt: int, engineName: string, engineNS: string, cluster: Cluster): Option<ChaosData>
  {
    match cluster.engine(engineNS, engineName)
    case None => None
    case Some(crd) =>
      if startedAt > crd.createdAt then
        None
      else
        var stopped := ToLower(crd.engineStatus) == "stopped";
        var cd := ChaosData(crd.uid, crd.context, engineName, engineNS, "",
                            if stopped then crd.engineStatus else "", "",
                            if stopped then "Fail" else "", "", "", "0", "");
        if crd.experiments == [] then
          Some(cd)
        else
          var x := crd.experiments[0];
          var failed := stopped || (ToLower(crd.engineStatus) == "completed" && ToLower(x.verdict) != "pass");
          var cd1 := cd.(experimentPod := x.expPod, runnerPod := x.runner, experimentName := x.name,
                         lastUpdatedAt := FormatInt(x.lastUpdateTime),
                         experimentStatus := if failed then crd.engineStatus else x.status,
                         experimentVerdict := if failed then "Fail" else x.verdict);
          if |crd.experiments| == 1 && crd.result.Some? then
            Some(cd1.(probeSuccessPercentage := crd.result.value.probeSuccessPercentage,
                      failStep := crd.result.value.failStep))
          else
            Some(cd1)
  }

  datatype Manifest = Manifest(kind: string, name: string, generateName: string, namespace: string)

  /**
   `manifest` is present when the node is a Pod with exactly one input artifact that carries raw data
   and that data decodes as a resource.
   */
  datatype NodeStatus = NodeStatus(
    displayName: string, phase: string, nodeType: string, startedAt: int, finishedAt: int,
    children: seq<string>, message: string, manifest: Option<Manifest>)

  /** The reported type of a node and its chaos data, if it has any. */
  function CheckChaosData(id: string, status: NodeStatus, cluster: Cluster): (string, Option<ChaosData>)
  {
    if status.manifest.None? || status.manifest.value.kind != "ChaosEngine" then
      (status.nodeType, None)
    else if status.phase == "Pending" then
      ("ChaosEngine", None)
    else
      var manifest := status.manifest.value;
      var name := if manifest.generateName != "" then cluster.generatedName(id) else Some(manifest.name);
      if name.None? || (manifest.generateName != "" && name.value == "") then
        ("ChaosEngine", None)
      else
        ("ChaosEngine", GetChaosData(status.startedAt, name.value, manifest.namespace, cluster))
  }

  // ----- workflow handler ---------------------------------------------------------------------

  datatype Workflow = Workflow(
    workflowID: string, executedBy: string, uid: string, namespace: string, name: string,
    createdAt: int, phase: string, message: string, startedAt: int, finishedAt: int,
    nodes: map<string, NodeStatus>)

  /** The node built for one node status. */
  function Details(id: string, status: NodeStatus, cluster: Cluster): Node
  {
    var (nodeType, cd) := CheckChaosData(id, status, cluster);
    var n := Node(status.displayName, status.phase, status.message, StrConvTime(status.startedAt),
                  StrConvTime(status.finishedAt), status.children, nodeType, cd);
    if Failing(n) then
      n.(phase := "Failed", message := "Chaos Experiment Failed",
         chaosExp := Some(cd.value.(experimentVerdict := "Fail")))
    else
      n
  }

  ghost predicate SomeFailing(nodes: Nodes) {
    exists k :: k in nodes && Failing(nodes[k])
  }

  lemma AddNode(nodes: Nodes, id: string, n: Node)
    requires id !in nodes
    ensures SomeFailing(nodes[id := n]) <==> SomeFailing(nodes) || Failing(n)
  {
    var after := nodes[id := n];
    if SomeFailing(nodes) {
      var k :| k in nodes && Failing(nodes[k]);
      assert k in after && Failing(after[k]);
    }
    if Failing(n) {
      assert id in after && Failing(after[id]);
    }
  }

  /** Rewriting a failing node keeps it failing, and marks it as failed. */
  lemma DetailsFailing(id: string, status: NodeStatus, cluster: Cluster)
    ensures
      var cd := CheckChaosData(id, status, cluster).1;
      var d := Details(id, status, cluster);
      (Failing(d) <==> cd.Some? && ToLower(cd.value.experimentVerdict) == "fail")
      && (Failing(d) ==> d.phase == "Failed")
  {
    LowerOfFail();
  }

  /** The nodes built for some of a workflow's node statuses. */
  function NodesOf(w: Workflow, cluster: Cluster, ids: set<string>): Nodes {
    map id | id in w.nodes && id in ids :: Details(id, w.nodes[id], cluster)
  }

  /** An event whose nodes were built one by one shows its failures if its run does. */
  lemma DetailsShowFailures(w: Workflow, nodes: Nodes, run: Run, cluster: Cluster)
    requires nodes == NodesOf(w, cluster, w.nodes.Keys)
    requires SomeFailing(nodes) ==> run.phase == "Failed"
    ensures FailShown(Event(run, nodes))
  {
    forall id | id in nodes && Failing(nodes[id])
      ensures nodes[id].phase == "Failed" && run.phase == "Failed"
    {
      DetailsFailing(id, w.nodes[id], cluster);
    }
  }

  /** The event streamed in place of a run that is ignored. */
  const EMPTY_RUN := Run("", "", "", "", "", "", "", "", "", "", "", "")

  lemma OneMoreNode(w: Workflow, cluster: Cluster, done: set<string>, id: string)
    requires id in w.nodes && id !in done
    ensures var before, d := NodesOf(w, cluster, done), Details(id, w.nodes[id], cluster);
            && NodesOf(w, cluster, done + {id}) == before[id := d]
            && (SomeFailing(before[id := d]) <==> SomeFailing(before) || Failing(d))
  {
    AddNode(NodesOf(w, cluster, done), id, Details(id, w.nodes[id], cluster));
  }

  /** Builds the nodes one by one; the order in which they are visited does not matter. */
  method BuildNodes(w: Workflow, cluster: Cluster) returns (nodes: NodeMap, experimentFail: int)
    ensures fresh(nodes) && !nodes.isNil
    ensures nodes.m == NodesOf(w, cluster, w.nodes.Keys)
    ensures experimentFail == 1 <==> SomeFailing(nodes.m)
  {
    experimentFail := 0;
    nodes := new NodeMap(false);
    var ids := w.nodes.Keys;
    while ids != {}
      invariant ids <= w.nodes.Keys
      invariant nodes.m == NodesOf(w, cluster, w.nodes.Keys - ids)
      invariant experimentFail == 1 <==> SomeFailing(nodes.m)
      decreases ids
    {
      var id :| id in ids;
      var status := w.nodes[id];
      var (nodeType, cd) := CheckChaosData(id, status, cluster);
      var details := Node(status.displayName, status.phase, status.message, StrConvTime(status.startedAt),
                          StrConvTime(status.finishedAt), status.children, nodeType, cd);
      if cd.Some? && ToLower(cd.value.experimentVerdict) == "fail" {
        experimentFail := 1;
        details := details.(phase := "Failed", message := "Chaos Experiment Failed",
                            chaosExp := Some(cd.value.(experimentVerdict := "Fail")));
      }
      DetailsFailing(id, status, cluster);
      OneMoreNode(w, cluster, w.nodes.Keys - ids, id);
      assert w.nodes.Keys - (ids - {id}) == w.nodes.Keys - ids + {id};
      nodes.m := nodes.m[id := details];
      ids := ids - {id};
    }
    assert w.nodes.Keys - {} == w.nodes.Keys;
  }

  /** Builds the event of a workflow run. */
  method WorkflowEventHandler(w: Workflow, eventType: string, startTime: int, cluster: Cluster)
    returns (event: EventRecord)
    ensures fresh(event.nodes)
    ensures event.nodes.isNil <==> w.workflowID == "" || w.createdAt < startTime
    ensures event.nodes.isNil ==> View(event) == Event(Run("", "", "", "", "", "", "", "", "", "", "", ""), map[])
    ensures w.workflowID != "" && w.createdAt >= startTime ==>
              && event.nodes.m == NodesOf(w, cluster, w.nodes.Keys)
              && var failed := SomeFailing(event.nodes.m);
                 event.run == Run("events", w.workflowID, eventType, w.uid, w.namespace, w.name,
                                  StrConvTime(w.createdAt),
                                  if failed then "Failed" else w.phase,
                                  if failed then "Chaos Experiment Failed" else w.message,
                                  StrConvTime(w.startedAt), StrConvTime(w.finishedAt), w.executedBy)
    ensures FailShown(View(event))
  {
    var none := new NodeMap(true);
    event := Event(EMPTY_RUN, none);
    if w.workflowID == "" {
      return;
    }
    if w.createdAt < startTime {
      return;
    }
    var nodes, experimentFail := BuildNodes(w, cluster);
    var run := Run("events", w.workflowID, eventType, w.uid, w.namespace, w.name, StrConvTime(w.createdAt),
                   w.phase, w.message, StrConvTime(w.startedAt), StrConvTime(w.finishedAt), w.executedBy);
    if experimentFail == 1 {
      run := run.(phase := "Failed", message := "Chaos Experiment Failed");
    }
    DetailsShowFailures(w, nodes.m, run, cluster);
    event := Event(run, nodes);
  }

  // ----- chaos engine handler -----------------------------------------------------------------

  datatype EngineObject = EngineObject(
    workflowID: string, uid: string, namespace: string, name: string, createdAt: int,
    engineStatus: string, experiments: seq<Experiment>)

  function MapStatus(status: string): string
  {
    if status == "initialized" then "Running"
    else if status == "completed" then "Succeeded"
    else if status == "stopped" then "Skipped"
    else "Running"
  }

  /** Builds the event of a stand-alone chaos engine, or nothing when the engine is ignored. */
  method ChaosEventHandler(e: EngineObject, eventType: string, startTime: int, cluster: Cluster)
    returns (streamed: Option<EventRecord>)
    ensures streamed.None? <==> e.workflowID == "" || e.createdAt < startTime
    ensures streamed.Some? ==>
              var event := streamed.value;
              var cd := GetChaosData(e.createdAt, e.name, e.namespace, cluster);
              var failed := cd.Some? && ToLower(cd.value.experimentVerdict) == "fail";
              var ended := (e.engineStatus == "completed" || e.engineStatus == "stopped") && e.experiments != [];
              var started, run := StrConvTime(e.createdAt), event.run;
              && fresh(event.nodes) && !event.nodes.isNil
              && run.workflowType == "chaosengine" && run.workflowID == e.workflowID && run.eventType == eventType
              && run.uid == e.uid && run.namespace == e.namespace && run.name == e.name && run.executedBy == ""
              && run.creationTimestamp == run.startedAt == started
              && run.finishedAt == (if ended then StrConvTime(e.experiments[0].lastUpdateTime) else "")
              && run.phase == (if failed then "Failed" else if e.engineStatus == "completed" then "Succeeded"
                               else if e.engineStatus == "stopped" then "Skipped" else "Running")
              && run.message == (if failed then "Chaos Experiment Failed" else e.engineStatus)
              && event.nodes.m == map[
                   e.name := Node(e.name, "Succeeded", "", started, run.finishedAt, [e.name + "-engine"], "Steps",
                                  None),
                   e.name + "-engine" := Node(e.name, run.phase, run.message, started, run.finishedAt, [],
                                              "ChaosEngine", cd)]
              && FailShown(View(event))
  {
    if e.workflowID == "" || e.createdAt < startTime {
      return None;
    }
    var nodes := new NodeMap(false);
    var cd := GetChaosData(e.createdAt, e.name, e.namespace, cluster);
    var finTime := -1;
    if e.engineStatus == "completed" || e.engineStatus == "stopped" {
      if |e.experiments| > 0 {
        finTime := e.experiments[0].lastUpdateTime;
      }
    }
    nodes.m := nodes.m[e.name := Node(e.name, "Succeeded", "", StrConvTime(e.createdAt), StrConvTime(finTime),
                                      [e.name + "-engine"], "Steps", None)];
    var details := Node(e.name, MapStatus(e.engineStatus), e.engineStatus, StrConvTime(e.createdAt),
                        StrConvTime(finTime), [], "ChaosEngine", cd);
    if cd.Some? && ToLower(cd.value.experimentVerdict) == "fail" {
      details := details.(phase := "Failed", message := "Chaos Experiment Failed");
    }
    assert |e.name + "-engine"| == |e.name| + 7;
    nodes.m := nodes.m[e.name + "-engine" := details];
    var run := Run("chaosengine", e.workflowID, eventType, e.uid, e.namespace, e.name, StrConvTime(e.createdAt),
                   details.phase, details.message, details.startedAt, details.finishedAt, "");
    streamed := Some(Event(run, nodes));
  }

  lemma LowerOfFail()
    ensures ToLower("Fail") == "fail"
  {
  }

  /**
   Which engines yield a failing verdict: the ones that were stopped, the ones that completed without
   passing, and the ones whose first experiment reports a failure itself.
   */
  lemma VerdictFailsExactly(startedAt: int, name: string, ns: string, cluster: Cluster)
    ensures
      var cd := GetChaosData(startedAt, name, ns, cluster);
      var crd := cluster.engine(ns, name);
      cd.Some? && ToLower(cd.value.experimentVerdict) == "fail" <==>
        crd.Some? && startedAt <= crd.value.createdAt
        && (|| ToLower(crd.value.engineStatus) == "stopped"
            || (crd.value.experiments != []
                && (|| ToLower(crd.value.experiments[0].verdict) == "fail"
                    || (ToLower(crd.value.engineStatus) == "completed"
                        && ToLower(crd.value.experiments[0].verdict) != "pass"))))
  {
    LowerOfFail();
    assert ToLower("") == "";
  }

  // ----- what the chaos data says -------------------------------------------------------------

  /** Whose engine's data it is, and that there is some exactly if the engine is found and not older than the node. */
  lemma ChaosDataOfEngine(startedAt: int, name: string, ns: string, cluster: Cluster)
    ensures
      var cd, crd := GetChaosData(startedAt, name, ns, cluster), cluster.engine(ns, name);
      && (cd.Some? <==> crd.Some? && startedAt <= crd.value.createdAt)
      && (cd.Some? ==> cd.value.engineUID == crd.value.uid && cd.value.engineContext == crd.value.context
                       && cd.value.engineName == name && cd.value.namespace == ns)
  {
  }

  /** The first experiment's data, and the result of an only experiment, if it could be fetched. */
  lemma ChaosDataOfExperiment(startedAt: int, name: string, ns: string, cluster: Cluster)
    requires GetChaosData(startedAt, name, ns, cluster).Some?
    ensures
      var cd, crd := GetChaosData(startedAt, name, ns, cluster).value, cluster.engine(ns, name).value;
      && (crd.experiments == [] ==>
            cd.experimentName == cd.experimentPod == cd.runnerPod == cd.lastUpdatedAt == "")
      && (crd.experiments != [] ==>
            var x := crd.experiments[0];
            cd.experimentName == x.name && cd.experimentPod == x.expPod && cd.runnerPod == x.runner
            && cd.lastUpdatedAt == (if x.lastUpdateTime < 0 then "-" + Decimal(-x.lastUpdateTime)
                                    else Decimal(x.lastUpdateTime)))
      && (if |crd.experiments| == 1 && crd.result.Some?
          then cd.probeSuccessPercentage == crd.result.value.probeSuccessPercentage
               && cd.failStep == crd.result.value.failStep
          else cd.probeSuccessPercentage == "0" && cd.failStep == "")
  {
  }

  /** Status and verdict are the engine's status and "Fail" if that was imposed, and else the first experiment's own. */
  lemma ChaosDataVerdict(startedAt: int, name: string, ns: string, cluster: Cluster)
    requires GetChaosData(startedAt, name, ns, cluster).Some?
    ensures
      var cd, crd := GetChaosData(startedAt, name, ns, cluster).value, cluster.engine(ns, name).value;
      var status := ToLower(crd.engineStatus);
      if status == "stopped" || (status == "completed" && crd.experiments != []
                                 && ToLower(crd.experiments[0].verdict) != "pass")
      then cd.experimentVerdict == "Fail" && cd.experimentStatus == crd.engineStatus
      else if crd.experiments == [] then cd.experimentVerdict == cd.experimentStatus == ""
      else cd.experimentVerdict == crd.experiments[0].verdict && cd.experimentStatus == crd.experiments[0].status
  {
  }

  /** The name of the engine that a node's manifest creates, if it can be told. */
  function EngineName(id: string, manifest: Manifest, cluster: Cluster): Option<string> {
    if manifest.generateName == "" then Some(manifest.name)
    else if cluster.generatedName(id) == Some("") then None
    else cluster.generatedName(id)
  }

  /** A node is reported as a chaos engine, with that engine's data, exactly if its manifest makes one. */
  lemma CheckedExactly(id: string, status: NodeStatus, cluster: Cluster)
    ensures
      var (nodeType, cd) := CheckChaosData(id, status, cluster);
      var creates := status.manifest.Some? && status.manifest.value.kind == "ChaosEngine";
      && nodeType == (if creates then "ChaosEngine" else status.nodeType)
      && (cd.Some? ==> creates && status.phase != "Pending")
      && (creates && status.phase != "Pending" ==>
            var manifest := status.manifest.value;
            var name := EngineName(id, manifest, cluster);
            cd == if name.None? then None else GetChaosData(status.startedAt, name.value, manifest.namespace, cluster))
  {
  }

  /** What a node shows of its status: all of it, except that a failing verdict shows as failed. */
  lemma DetailsExactly(id: string, status: NodeStatus, cluster: Cluster)
    ensures
      var (nodeType, cd) := CheckChaosData(id, status, cluster);
      var failed := cd.Some? && ToLower(cd.value.experimentVerdict) == "fail";
      var d := Details(id, status, cluster);
      && d.name == status.displayName && d.children == status.children && d.nodeType == nodeType
      && d.startedAt == (if status.startedAt < 0 then "" else Decimal(status.startedAt))
      && d.finishedAt == (if status.finishedAt < 0 then "" else Decimal(status.finishedAt))
      && d.phase == (if failed then "Failed" else status.phase)
      && d.message == (if failed then "Chaos Experiment Failed" else status.message)
      && (d.chaosExp.Some? <==> cd.Some?)
      && (cd.Some? ==> d.chaosExp.value
                       == if failed then cd.value.(experimentVerdict := "Fail") else cd.value)
  {
  }
}
