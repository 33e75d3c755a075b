/** What the cache of run events amounts to over any history of deliveries. */
module EventHistory {
  import opened Prelude
  import opened Text
  import opened RunEvents
  import opened EventCache

  type History = seq<Delivery>

  /** The cache after a history, starting from an empty one. */
  ghost function CacheAfter(h: History): Cache {
    if h == [] then map[] else NextCache(CacheAfter(Front(h)), Last(h))
  }

  /** What delivering `d` after the history emits. */
  ghost function EmittedAfter(h: History, d: Delivery): Option<Emission> {
    Emitted(CacheAfter(h), d)
  }

  predicate Reports(d: Delivery, uid: string, key: string) {
    d.event.run.uid == uid && At(d.event.nodes, key).chaosExp.Some?
  }

  /**
   Delivery s is where the chaos data that the run can hand on for a key comes from: it carried chaos data
   itself, none of the run's later deliveries did, from s on every delivery of the run reported the node as
   a chaos engine, and none that could be sent said that the run had finished.
   */
  ghost predicate Supplies(h: History, s: nat, uid: string, key: string) {
    && s < |h| && Reports(h[s], uid, key)
    && (forall i :: s < i < |h| ==> !Reports(h[i], uid, key))
    && (forall i :: s <= i < |h| && h[i].event.run.uid == uid ==>
          At(h[i].event.nodes, key).nodeType == "ChaosEngine" && !EndsRun(h[i]))
  }

  /** The delivery could be sent and said that its run had finished. */
  predicate EndsRun(d: Delivery) {
    d.marshalled && d.event.run.finishedAt != ""
  }

  /** The node a later event of the run would inherit from for this key, if any. */
  ghost function Inheritable(c: Cache, uid: string, key: string): Option<Node> {
    if uid in c && key in c[uid].nodes && c[uid].nodes[key].nodeType == "ChaosEngine"
       && c[uid].nodes[key].chaosExp.Some?
    then Some(c[uid].nodes[key]) else None
  }

  /** n shows chaos data, phase and message of the node that delivery s reported, the message without quotes. */
  ghost predicate ShowsDataOf(n: Node, h: History, s: nat, key: string)
    requires s < |h|
  {
    var source := At(h[s].event.nodes, key);
    n.chaosExp == source.chaosExp && n.phase == source.phase && n.message == RemoveChar(source.message, '"')
  }

  /** The cache agrees with the history on what can be inherited for a key. */
  ghost predicate Agree(c: Cache, h: History, uid: string, key: string) {
    var held := Inheritable(c, uid, key);
    && (held.Some? <==> exists s: nat :: Supplies(h, s, uid, key))
    && (forall s: nat :: Supplies(h, s, uid, key) && held.Some? ==> ShowsDataOf(held.value, h, s, key))
  }

  /** The cache holds inheritable data exactly when some delivery supplies it, and then it is that delivery's. */
  lemma {:induction false} CacheFollowsSupply(h: History, uid: string, key: string)
    ensures Agree(CacheAfter(h), h, uid, key)
  {
    if h != [] {
      var p, d := Front(h), Last(h);
      CacheFollowsSupply(p, uid, key);
      assert h == p + [d];
      AgreeStep(CacheAfter(p), p, d, uid, key);
    }
  }

  lemma AgreeStep(c: Cache, p: History, d: Delivery, uid: string, key: string)
    requires Agree(c, p, uid, key)
    ensures Agree(NextCache(c, d), p + [d], uid, key)
  {
    var h := p + [d];
    SupplyStep(p, d, uid, key);
    InheritableStep(c, d, uid, key);
    var before, after := Inheritable(c, uid, key), Inheritable(NextCache(c, d), uid, key);
    if d.event.run.uid != uid {
      assert forall s: nat :: Supplies(h, s, uid, key) <==> Supplies(p, s, uid, key);
    } else if Evicts(d) || At(d.event.nodes, key).nodeType != "ChaosEngine" {
      assert forall s: nat :: !Supplies(h, s, uid, key);
    } else if Reports(d, uid, key) {
      assert Supplies(h, |p|, uid, key);
    } else {
      assert forall s: nat :: Supplies(h, s, uid, key) <==> Supplies(p, s, uid, key);
      forall s: nat | Supplies(p, s, uid, key) {
        RemoveCharTwice(At(p[s].event.nodes, key).message, '"');
      }
    }
  }

  /** How one more delivery changes who supplies a key. */
  lemma SupplyStep(p: History, d: Delivery, uid: string, key: string)
    ensures
      var h := p + [d];
      forall s :: Supplies(h, s, uid, key) <==>
        if d.event.run.uid != uid then Supplies(p, s, uid, key)
        else At(d.event.nodes, key).nodeType == "ChaosEngine" && !Evicts(d)
             && (if Reports(d, uid, key) then s == |p| else Supplies(p, s, uid, key))
  {
    var h := p + [d];
    assert h[|p|] == d;
    assert forall i :: 0 <= i < |p| ==> h[i] == p[i];
  }

  /** How one more delivery changes what the cache can hand on. */
  lemma InheritableStep(c: Cache, d: Delivery, uid: string, key: string)
    ensures
      var before, after := Inheritable(c, uid, key), Inheritable(NextCache(c, d), uid, key);
      if d.event.run.uid != uid then after == before
      else if Evicts(d) || At(d.event.nodes, key).nodeType != "ChaosEngine" then after == None
      else if Reports(d, uid, key) then after == Some(Unquoted(At(d.event.nodes, key)))
      else if before.None? then after == None
      else after == Some(Unquoted(Inherit(At(d.event.nodes, key), before.value)))
  {
    PreparedNode(c, d.event, key);
  }

  /** The node that is emitted, and cached, for a key. */
  lemma PreparedNode(c: Cache, e: Event<Nodes>, key: string)
    ensures
      var n := Prepared(c, e).nodes;
      var own := At(e.nodes, key);
      var before := Inheritable(c, e.run.uid, key);
      if own.chaosExp.None? && before.Some? then key in n && n[key] == Unquoted(Inherit(own, before.value))
      else (key in n <==> key in e.nodes) && At(n, key) == Unquoted(own)
  {
    assert Unquoted(ZERO_NODE) == ZERO_NODE;
  }

  lemma RemoveCharTwice(s: string, c: char)
    ensures RemoveChar(RemoveChar(s, c), c) == RemoveChar(s, c)
  {
  }

  /**
   Every emitted event shows, for a key on which it has no chaos data of its own, the chaos data, phase and
   message of the delivery that supplies them, and no chaos data exactly when no delivery supplies any.
   */
  lemma EmittedInheritsExactly(h: History, d: Delivery, key: string)
    requires d.marshalled
    ensures
      var uid, own := d.event.run.uid, At(d.event.nodes, key);
      var n := At(EmittedAfter(h, d).value.event.nodes, key);
      && (Reports(d, uid, key) ==> n == own.(message := RemoveChar(own.message, '"')))
      && (!Reports(d, uid, key) ==>
            && (n.chaosExp.Some? <==> exists s :: Supplies(h, s, uid, key))
            && (forall s :: Supplies(h, s, uid, key) ==> ShowsDataOf(n, h, s, key))
            && (n.chaosExp.None? ==> n == own.(message := RemoveChar(own.message, '"'))))
      && n == own.(chaosExp := n.chaosExp, phase := n.phase, message := n.message)
      && (key !in d.event.nodes ==> own == Node("", "", "", "", "", [], "", None))
  {
    var uid := d.event.run.uid;
    CacheFollowsSupply(h, uid, key);
    PreparedNode(CacheAfter(h), d.event, key);
    forall s: nat | Supplies(h, s, uid, key) {
      RemoveCharTwice(At(h[s].event.nodes, key).message, '"');
    }
  }

  /** What is emitted has the nodes of the event and those for which some delivery supplies chaos data, and no other. */
  lemma EmittedNodesExactly(h: History, d: Delivery, key: string)
    ensures EmittedAfter(h, d).Some? <==> d.marshalled
    ensures d.marshalled ==>
              var sent := EmittedAfter(h, d).value;
              && (sent.completed <==> d.event.run.finishedAt != "")
              && (key in sent.event.nodes <==>
                    key in d.event.nodes || exists s :: Supplies(h, s, d.event.run.uid, key))
  {
    CacheFollowsSupply(h, d.event.run.uid, key);
    PreparedNode(CacheAfter(h), d.event, key);
  }

  /** Some delivery supplies, for a key on which d has no chaos data of its own, a node that failed. */
  ghost predicate InheritsFailure(h: History, d: Delivery) {
    exists s: nat, key :: Supplies(h, s, d.event.run.uid, key) && InheritsFrom(h, s, d, key)
  }

  ghost predicate InheritsFrom(h: History, s: nat, d: Delivery, key: string)
    requires s < |h|
  {
    At(d.event.nodes, key).chaosExp.None? && At(h[s].event.nodes, key).phase == "Failed"
  }

  lemma FailureCarriedExactly(c: Cache, e: Event<Nodes>)
    requires e.run.uid in c
    ensures var cached := c[e.run.uid].nodes;
            FailedCarried(cached, e.nodes, cached.Keys) <==> exists key :: HandsOnFailure(c, e, key)
  {
    var cached := c[e.run.uid].nodes;
    forall key
      ensures HandsOnFailure(c, e, key) <==>
                key in cached.Keys && Carries(cached, e.nodes, key) && cached[key].phase == "Failed"
    {
    }
    if FailedCarried(cached, e.nodes, cached.Keys) {
      var key :| key in cached.Keys && Carries(cached, e.nodes, key) && cached[key].phase == "Failed";
      assert HandsOnFailure(c, e, key);
    }
  }

  /** The merge marks the run as failed exactly if it hands on a failed node. */
  lemma PreparedRun(c: Cache, e: Event<Nodes>)
    ensures Prepared(c, e).run
            == if e.run.uid in c && FailedCarried(c[e.run.uid].nodes, e.nodes, c[e.run.uid].nodes.Keys)
               then e.run.(phase := "Failed", message := "Chaos Experiment Failed") else e.run
  {
  }

  lemma HandsOnExactly(c: Cache, e: Event<Nodes>)
    ensures e.run.uid in c && FailedCarried(c[e.run.uid].nodes, e.nodes, c[e.run.uid].nodes.Keys)
            <==> exists key :: HandsOnFailure(c, e, key)
  {
    if e.run.uid in c {
      FailureCarriedExactly(c, e);
    } else {
      assert forall key :: !HandsOnFailure(c, e, key);
    }
  }

  ghost predicate HandsOnFailure(c: Cache, e: Event<Nodes>, key: string) {
    var held := Inheritable(c, e.run.uid, key);
    held.Some? && At(e.nodes, key).chaosExp.None? && held.value.phase == "Failed"
  }

  lemma FailureIsSupplied(h: History, d: Delivery, key: string)
    ensures HandsOnFailure(CacheAfter(h), d.event, key) <==>
            exists s: nat :: Supplies(h, s, d.event.run.uid, key) && InheritsFrom(h, s, d, key)
  {
    CacheFollowsSupply(h, d.event.run.uid, key);
  }

  /**
   An emitted event has the run fields it was delivered with, unless some delivery supplies a failed node on
   which it has no chaos data itself: then it has phase and message of a failed run, and all else unchanged.
   */
  lemma EmittedRunExactly(h: History, d: Delivery)
    requires d.marshalled
    ensures EmittedAfter(h, d).value.event.run
            == if InheritsFailure(h, d)
               then d.event.run.(phase := "Failed", message := "Chaos Experiment Failed") else d.event.run
  {
    PreparedRun(CacheAfter(h), d.event);
    HandsOnExactly(CacheAfter(h), d.event);
    if s: nat, key :| Supplies(h, s, d.event.run.uid, key) && InheritsFrom(h, s, d, key) {
      FailureIsSupplied(h, d, key);
    }
    if key :| HandsOnFailure(CacheAfter(h), d.event, key) {
      FailureIsSupplied(h, d, key);
      var s: nat :| Supplies(h, s, d.event.run.uid, key) && InheritsFrom(h, s, d, key);
    }
  }

  /** All deliveries of the run from index `from` on report the node as a chaos engine. */
  ghost predicate StaysChaosEngine(h: History, from: nat, uid: string, key: string) {
    forall i :: from <= i < |h| && h[i].event.run.uid == uid ==> At(h[i].event.nodes, key).nodeType == "ChaosEngine"
  }

  /**
   As long as its node keeps being reported as a chaos engine, a run's emitted event shows the latest chaos
   data reported since the run last finished: s is the latest report and no delivery since then ended the run.
   */
  lemma LatestChaosDataIsShown(h: History, d: Delivery, s: nat, key: string)
    requires d.marshalled && s < |h|
    requires var uid := d.event.run.uid;
             && Reports(h[s], uid, key) && !Reports(d, uid, key)
             && (forall i :: s < i < |h| ==> !Reports(h[i], uid, key))
             && (forall i :: s <= i < |h| && h[i].event.run.uid == uid ==> !EndsRun(h[i]))
    ensures StaysChaosEngine(h, s, d.event.run.uid, key) ==>
              ShowsDataOf(At(EmittedAfter(h, d).value.event.nodes, key), h, s, key)
    ensures At(EmittedAfter(h, d).value.event.nodes, key).chaosExp.Some? <==>
              StaysChaosEngine(h, s, d.event.run.uid, key)
  {
    EmittedInheritsExactly(h, d, key);
    var uid := d.event.run.uid;
    if StaysChaosEngine(h, s, uid, key) {
      assert Supplies(h, s, uid, key);
    }
    forall t: nat | Supplies(h, t, uid, key)
      ensures t == s
    {
    }
  }

  /**
   A workflow's event reports chaos data for a node exactly if the node's manifest makes a chaos engine that was
   found, not pending, under its name, and not older than the node; and such a node can be inherited from.
   */
  lemma WorkflowReportsExactly(w: Workflow, run: Run, cluster: Cluster, marshalled: bool, id: string)
    ensures
      var d := Delivery(Event(run, NodesOf(w, cluster, w.nodes.Keys)), marshalled);
      && (Reports(d, run.uid, id) <==> id in w.nodes && EngineFound(id, w.nodes[id], cluster))
      && (Reports(d, run.uid, id) ==> At(d.event.nodes, id).nodeType == "ChaosEngine")
  {
    if id in w.nodes {
      CheckedExactly(id, w.nodes[id], cluster);
    }
  }

  ghost predicate EngineFound(id: string, status: NodeStatus, cluster: Cluster) {
    status.manifest.Some? && status.manifest.value.kind == "ChaosEngine" && status.phase != "Pending"
    && var name := EngineName(id, status.manifest.value, cluster);
       name.Some?
       && var engine := cluster.engine(status.manifest.value.namespace, name.value);
          engine.Some? && status.startedAt <= engine.value.createdAt
  }

  // ----- what the cache holds -----------------------------------------------------------------

  /** The run's last delivery, if it had any, and it did not end the run. */
  ghost predicate Unfinished(h: History, uid: string) {
    exists i :: 0 <= i < |h| && LastOf(h, i, uid) && !EndsRun(h[i])
  }

  ghost predicate LastOf(h: History, i: nat, uid: string)
    requires i < |h|
  {
    h[i].event.run.uid == uid && forall j :: i < j < |h| ==> h[j].event.run.uid != uid
  }

  /** The cache holds exactly the runs whose last event neither finished nor, having finished, was sent. */
  lemma {:induction false} CacheHoldsUnfinishedRuns(h: History, uid: string)
    ensures uid in CacheAfter(h) <==> Unfinished(h, uid)
  {
    if h != [] {
      var p, d := Front(h), Last(h);
      CacheHoldsUnfinishedRuns(p, uid);
      assert forall i :: 0 <= i < |p| ==> h[i] == p[i];
      if d.event.run.uid == uid {
        assert LastOf(h, |p|, uid);
        assert forall i :: 0 <= i < |p| ==> !LastOf(h, i, uid);
      } else {
        assert forall i :: 0 <= i < |p| ==> (LastOf(h, i, uid) <==> LastOf(p, i, uid));
      }
    }
  }

  /** The history of one run. */
  function OnlyRun(h: History, uid: string): History {
    if h == [] then []
    else if Last(h).event.run.uid == uid then OnlyRun(Front(h), uid) + [Last(h)]
    else OnlyRun(Front(h), uid)
  }

  /** Deliveries of other runs leave no trace in what a run emits. */
  lemma {:induction false} OtherRunsAreInvisible(h: History, d: Delivery)
    ensures EmittedAfter(h, d) == EmittedAfter(OnlyRun(h, d.event.run.uid), d)
    ensures var uid := d.event.run.uid;
            var a, b := CacheAfter(h), CacheAfter(OnlyRun(h, uid));
            (uid in a <==> uid in b) && (uid in a ==> a[uid] == b[uid])
    decreases |h|
  {
    if h != [] {
      var uid := d.event.run.uid;
      var p := Front(h);
      OtherRunsAreInvisible(p, d);
      if Last(h).event.run.uid == uid {
        var q := OnlyRun(p, uid);
        assert OnlyRun(h, uid) == q + [Last(h)];
        assert Front(q + [Last(h)]) == q;
      }
    }
  }

  // ----- failures stay visible ----------------------------------------------------------------

  ghost predicate CacheShowsFailures(c: Cache) {
    forall u :: u in c ==> FailShown(c[u])
  }

  lemma PreparedShowsFailures(c: Cache, e: Event<Nodes>)
    requires CacheShowsFailures(c) && FailShown(e)
    ensures FailShown(Prepared(c, e))
  {
    var out := Prepared(c, e);
    forall k | k in out.nodes && Failing(out.nodes[k])
      ensures out.nodes[k].phase == "Failed" && out.run.phase == "Failed"
    {
      PreparedNode(c, e, k);
      var before := Inheritable(c, e.run.uid, k);
      if At(e.nodes, k).chaosExp.None? && before.Some? {
        var cached := c[e.run.uid].nodes;
        assert FailShown(c[e.run.uid]);
        assert Failing(cached[k]) && Carries(cached, e.nodes, k);
        assert FailedCarried(cached, e.nodes, cached.Keys);
      } else {
        assert Failing(e.nodes[k]);
      }
    }
  }

  lemma {:induction false} CacheKeepsFailures(h: History)
    requires forall i :: 0 <= i < |h| ==> FailShown(h[i].event)
    ensures CacheShowsFailures(CacheAfter(h))
  {
    if h != [] {
      CacheKeepsFailures(Front(h));
      PreparedShowsFailures(CacheAfter(Front(h)), Last(h).event);
    }
  }

  /**
   If every delivered event shows its own failures, as both handlers ensure, then so does every emitted one,
   including failures inherited over any number of events.
   */
  lemma EmittedShowsFailures(h: History, d: Delivery)
    requires forall i :: 0 <= i < |h| ==> FailShown(h[i].event)
    requires d.marshalled && FailShown(d.event)
    ensures FailShown(EmittedAfter(h, d).value.event)
  {
    CacheKeepsFailures(h);
    PreparedShowsFailures(CacheAfter(h), d.event);
  }
}
