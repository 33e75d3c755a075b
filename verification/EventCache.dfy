/**
 The cache of run events. An event can arrive without chaos data that an earlier event of the same
 run carried; the subscriber fills it in from the event it cached last. The first part says on values
 what one delivery does, `Subscriber` is the program over shared node maps, and `EventHistory` says
 what a whole history of deliveries makes of it.
 */
module EventCache {
  import opened Prelude
  import opened Text
  import opened RunEvents

  /** An event together with the outcome of marshalling its payload. */
  datatype Delivery = Delivery(event: Event<Nodes>, marshalled: bool)

  /** What is sent to the server: the event, with its node messages free of double quotes. */
  datatype Emission = Emission(event: Event<Nodes>, completed: bool)

  type Cache = map<string, Event<Nodes>>

  function At(nodes: Nodes, key: string): Node {
    if key in nodes then nodes[key] else ZERO_NODE
  }

  /** The cached node has chaos data to hand on and the new event has none of its own for this key. */
  predicate Carries(cached: Nodes, current: Nodes, key: string) {
    key in cached && cached[key].nodeType == "ChaosEngine" && cached[key].chaosExp.Some?
    && At(current, key).chaosExp.None?
  }

  function Inherit(current: Node, cached: Node): Node {
    current.(chaosExp := cached.chaosExp, phase := cached.phase, message := cached.message)
  }

  /** The new event's nodes after the keys in `done` were looked at. */
  function MergedNodes(cached: Nodes, current: Nodes, done: set<string>): Nodes {
    map k | k in current.Keys + done && (k in current || Carries(cached, current, k)) ::
      if k in done && Carries(cached, current, k) then Inherit(At(current, k), cached[k]) else At(current, k)
  }

  ghost predicate FailedCarried(cached: Nodes, current: Nodes, done: set<string>) {
    exists k :: k in done && Carries(cached, current, k) && cached[k].phase == "Failed"
  }

  function FailedRun(r: Run): Run {
    r.(phase := "Failed", message := "Chaos Experiment Failed")
  }

  ghost function Merged(cached: Nodes, e: Event<Nodes>): Event<Nodes> {
    var failed := FailedCarried(cached, e.nodes, cached.Keys);
    Event(if failed then FailedRun(e.run) else e.run, MergedNodes(cached, e.nodes, cached.Keys))
  }

  function Unquoted(n: Node): Node {
    n.(message := RemoveChar(n.message, '"'))
  }

  function Stripped(nodes: Nodes): Nodes {
    map k | k in nodes :: Unquoted(nodes[k])
  }

  ghost function FilledIn(cache: Cache, e: Event<Nodes>): Event<Nodes> {
    if e.run.uid in cache then Merged(cache[e.run.uid].nodes, e) else e
  }

  ghost function Prepared(cache: Cache, e: Event<Nodes>): Event<Nodes> {
    var merged := FilledIn(cache, e);
    Event(merged.run, Stripped(merged.nodes))
  }

  predicate Evicts(d: Delivery) {
    d.marshalled && d.event.run.finishedAt != ""
  }

  ghost function NextCache(cache: Cache, d: Delivery): Cache {
    if Evicts(d) then cache - {d.event.run.uid} else cache[d.event.run.uid := Prepared(cache, d.event)]
  }

  ghost function Emitted(cache: Cache, d: Delivery): Option<Emission> {
    if d.marshalled then Some(Emission(Prepared(cache, d.event), d.event.run.finishedAt != "")) else None
  }

  // ----- the program --------------------------------------------------------------------------

  class Subscriber {
    var eventMap: map<string, EventRecord>
    ghost var cache: Cache // what the records in eventMap stand for

    ghost function Maps(): set<NodeMap>
      reads this
    {
      set u | u in eventMap :: eventMap[u].nodes
    }

    /** Entries are filed under their own run, and no two runs share a node map. */
    ghost predicate Valid()
      reads this, Maps()
    {
      && cache.Keys == eventMap.Keys
      && (forall u :: u in eventMap ==> cache[u] == View(eventMap[u]) && cache[u].run.uid == u)
      && (forall u, v :: u in eventMap && v in eventMap && u != v ==> eventMap[u].nodes != eventMap[v].nodes)
    }

    constructor ()
      ensures Valid() && cache == map[]
    {
      eventMap, cache := map[], map[];
    }

    /**
     Fills chaos data of the cached event into the new one, in place. The result is a function of the two
     events alone, whatever the order in which the cached keys are visited.
     */
    method MergeCached(wfEvent: EventRecord, event: EventRecord) returns (merged: EventRecord)
      requires event.nodes.isNil ==> forall k :: !Carries(wfEvent.nodes.m, event.nodes.m, k)
      modifies event.nodes
      ensures merged.nodes == event.nodes
      ensures merged.run.uid == event.run.uid && merged.run.finishedAt == event.run.finishedAt
      ensures View(merged) == old(Merged(wfEvent.nodes.m, View(event)))
    {
      ghost var cached := wfEvent.nodes.m;
      ghost var current := event.nodes.m;
      merged := event;
      var keys := wfEvent.nodes.m.Keys;
      ghost var done: set<string> := {};
      assert MergedNodes(cached, current, {}) == current;
      while keys != {}
        invariant keys + done == cached.Keys && keys !! done
        invariant wfEvent.nodes == event.nodes ==> cached == current
        invariant wfEvent.nodes != event.nodes ==> wfEvent.nodes.m == cached
        invariant event.nodes.m == MergedNodes(cached, current, done)
        invariant merged.nodes == event.nodes
        invariant merged.run == if FailedCarried(cached, current, done) then FailedRun(event.run) else event.run
        decreases keys
      {
        var key :| key in keys;
        if wfEvent.nodes == event.nodes {
          MergedWithItself(cached, done);
        }
        MergeOneMore(cached, current, done, key);
        var node := wfEvent.nodes.m[key];
        if node.nodeType == "ChaosEngine" && node.chaosExp.Some? && At(event.nodes.m, key).chaosExp.None? {
          assert Carries(cached, current, key);
          var nodeData := At(event.nodes.m, key);
          nodeData := nodeData.(chaosExp := node.chaosExp, phase := node.phase, message := node.message);
          if node.phase == "Failed" {
            merged := merged.(run := FailedRun(merged.run));
          }
          assert !event.nodes.isNil;
          event.nodes.m := event.nodes.m[key := nodeData];
        }
        done := done + {key};
        keys := keys - {key};
      }
      assert done == cached.Keys;
    }

    /** Removes double quotes from the node messages, in the very map the event shares with the cache. */
    method StripMessages(event: EventRecord)
      modifies event.nodes
      ensures event.nodes.m == Stripped(old(event.nodes.m))
    {
      ghost var before := event.nodes.m;
      var ids := event.nodes.m.Keys;
      while ids != {}
        invariant ids <= before.Keys
        invariant event.nodes.m == map k | k in before :: if k in ids then before[k] else Unquoted(before[k])
        decreases ids
      {
        var id :| id in ids;
        var node := event.nodes.m[id];
        node := node.(message := RemoveChar(node.message, '"'));
        event.nodes.m := event.nodes.m[id := node];
        ids := ids - {id};
      }
    }

    /**
     What the source asks of an event: a nil node map never has to be written into, and the event does not
     share its node map with another run.
     */
    ghost predicate Accepts(event: EventRecord)
      reads this, Maps(), event.nodes
    {
      && (event.nodes.isNil && event.run.uid in eventMap ==>
            forall k :: !Carries(eventMap[event.run.uid].nodes.m, event.nodes.m, k))
      && (forall u :: u in eventMap && u != event.run.uid ==> eventMap[u].nodes != event.nodes)
    }

    /** Merges the event with the cached one, if there is one. */
    method FillIn(event: EventRecord) returns (e: EventRecord)
      requires Valid() && Accepts(event)
      modifies event.nodes
      ensures e.nodes == event.nodes && e.run.uid == event.run.uid && e.run.finishedAt == event.run.finishedAt
      ensures View(e) == old(FilledIn(cache, View(event)))
    {
      e := event;
      if event.run.uid in eventMap {
        e := MergeCached(eventMap[event.run.uid], event);
      }
    }

    /** Merges the event with the cached one, files it, and prepares its messages. */
    method Absorb(event: EventRecord) returns (e: EventRecord)
      requires Valid() && Accepts(event)
      modifies this, event.nodes
      ensures Valid()
      ensures e.nodes == event.nodes && e.run.uid == event.run.uid && e.run.finishedAt == event.run.finishedAt
      ensures e.run.uid in eventMap && eventMap[e.run.uid] == e
      ensures View(e) == old(Prepared(cache, View(event)))
      ensures cache == old(cache)[event.run.uid := View(e)]
      ensures Stripped(e.nodes.m) == e.nodes.m
    {
      e := FillIn(event);
      eventMap := eventMap[e.run.uid := e];
      StrippedTwice(e.nodes.m);
      StripMessages(e);
      cache := cache[e.run.uid := View(e)];
    }

    /** Prepares the payload of a finished run once more and drops the run. */
    method Complete(e: EventRecord) returns (final: Event<Nodes>)
      requires Valid()
      requires e.run.uid in eventMap && eventMap[e.run.uid] == e
      requires Stripped(e.nodes.m) == e.nodes.m
      modifies this, e.nodes
      ensures Valid()
      ensures final == old(View(e))
      ensures cache == old(cache) - {e.run.uid}
    {
      StripMessages(e);
      final := View(e);
      eventMap := eventMap - {e.run.uid};
      cache := cache - {e.run.uid};
    }

    /** Handles one event; `marshalled` says whether its payload could be generated. */
    method SendWorkflowUpdates(event: EventRecord, marshalled: bool) returns (sent: Option<Emission>)
      requires Valid() && Accepts(event)
      modifies this, event.nodes
      ensures Valid()
      ensures cache == NextCache(old(cache), Delivery(old(View(event)), marshalled))
      ensures sent == Emitted(old(cache), Delivery(old(View(event)), marshalled))
    {
      ghost var before, delivery := cache, Delivery(View(event), marshalled);
      var e := Absorb(event);
      AbsorbedAndEvicted(before, delivery, View(e));
      if !marshalled {
        return None;
      }
      sent := Some(Emission(View(e), false));
      if e.run.finishedAt != "" {
        var final := Complete(e);
        sent := Some(Emission(final, true));
      }
    }
  }

  /** What becomes of the cache and what is sent, given the prepared event. */
  lemma AbsorbedAndEvicted(cache: Cache, d: Delivery, prepared: Event<Nodes>)
    requires prepared == Prepared(cache, d.event)
    ensures var absorbed, uid := cache[d.event.run.uid := prepared], d.event.run.uid;
            NextCache(cache, d) == if d.marshalled && d.event.run.finishedAt != "" then absorbed - {uid} else absorbed
    ensures Emitted(cache, d) ==
            if d.marshalled then Some(Emission(prepared, d.event.run.finishedAt != "")) else None
  {
  }

  lemma MergeOneMore(cached: Nodes, current: Nodes, done: set<string>, key: string)
    requires key in cached && key !in done && done <= cached.Keys
    ensures
      var next := MergedNodes(cached, current, done + {key});
      var m := MergedNodes(cached, current, done);
      && At(m, key) == At(current, key)
      && next == (if Carries(cached, current, key) then m[key := Inherit(At(current, key), cached[key])] else m)
    ensures FailedCarried(cached, current, done + {key}) <==>
              FailedCarried(cached, current, done) || (Carries(cached, current, key) && cached[key].phase == "Failed")
  {
  }

  /** Merging a map with itself changes nothing. */
  lemma MergedWithItself(nodes: Nodes, done: set<string>)
    ensures MergedNodes(nodes, nodes, done) == nodes
  {
  }

  lemma StrippedTwice(nodes: Nodes)
    ensures Stripped(Stripped(nodes)) == Stripped(nodes)
  {
  }
}
