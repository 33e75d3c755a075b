/**
 Policies of the event tracker in the cluster's store. Auditors append a status, the reconciler asks the
 server to run the workflow of each waiting status and marks it. Both read the object, work on their copy
 and write it back; the store takes a write only if it is based on the current version.
 */
module PolicyStore {
  import opened Prelude
  import opened Text

  datatype Status = Status(
    timeStamp: string, resource: string, resourceName: string, result: string, workflowID: string,
    isTriggered: string)

  /** How one request to the server ends: it fails, its reply cannot be read, or it says what was done. */
  datatype Reply = Failed | Garbled | GitopsDisabled | Notified

  predicate Waiting(s: Status) {
    s.result == "ConditionPassed" && ToLower(s.isTriggered) == "false"
  }

  predicate Answered(r: Reply) {
    r == GitopsDisabled || r == Notified
  }

  function Marked(s: Status, r: Reply): Status {
    s.(isTriggered := if r == GitopsDisabled then "false" else "true")
  }

  /** The statuses once the first n were looked at and every request was answered. */
  function Swept(statuses: seq<Status>, replies: nat -> Reply, n: nat): (r: seq<Status>)
    requires n <= |statuses|
    ensures |r| == |statuses|
  {
    seq(|statuses|, i requires 0 <= i < |statuses| =>
      if i < n && Waiting(statuses[i]) then Marked(statuses[i], replies(i)) else statuses[i])
  }

  /** Which of the first n statuses a request was sent for. */
  function Asked(statuses: seq<Status>, n: nat): set<nat>
    requires n <= |statuses|
  {
    set i: nat | i < n && Waiting(statuses[i])
  }

  ghost predicate AllAnswered(statuses: seq<Status>, replies: nat -> Reply, n: nat)
    requires n <= |statuses|
  {
    forall i: nat :: i < n && Waiting(statuses[i]) ==> Answered(replies(i))
  }

  /** What looking at one more status amounts to. */
  lemma SweptOneMore(statuses: seq<Status>, replies: nat -> Reply, n: nat)
    requires n < |statuses|
    ensures Asked(statuses, n + 1) == Asked(statuses, n) + if Waiting(statuses[n]) then {n} else {}
    ensures Swept(statuses, replies, n + 1) == Swept(statuses, replies, n)[
              n := if Waiting(statuses[n]) then Marked(statuses[n], replies(n)) else statuses[n]]
  {
  }

  /**
   The reconciler's loop over its copy of the statuses; replies(i) is the answer to the request for status i.
   It gives up at the first request that is not answered.
   */
  method Sweep(statuses: array<Status>, replies: nat -> Reply) returns (asked: set<nat>, done: bool)
    modifies statuses
    ensures done <==> AllAnswered(old(statuses[..]), replies, statuses.Length)
    ensures done ==> statuses[..] == Swept(old(statuses[..]), replies, statuses.Length)
                     && asked == Asked(old(statuses[..]), statuses.Length)
    ensures !done ==> exists k :: 0 <= k < statuses.Length && Waiting(old(statuses[k])) && !Answered(replies(k))
                                  && AllAnswered(old(statuses[..]), replies, k)
                                  && asked == Asked(old(statuses[..]), k + 1)
                                  && statuses[..] == Swept(old(statuses[..]), replies, k)
  {
    ghost var before := statuses[..];
    asked := {};
    var index := 0;
    while index < statuses.Length
      invariant 0 <= index <= statuses.Length
      invariant statuses[..] == Swept(before, replies, index)
      invariant asked == Asked(before, index)
      invariant AllAnswered(before, replies, index)
    {
      var status := statuses[index];
      assert status == statuses[..][index] == before[index];
      SweptOneMore(before, replies, index);
      if status.result == "ConditionPassed" && ToLower(status.isTriggered) == "false" {
        asked := asked + {index};
        var response := replies(index);
        if response == Failed || response == Garbled {
          assert Waiting(before[index]) && !Answered(replies(index));
          return asked, false;
        }
        if response == GitopsDisabled {
          statuses[index] := statuses[index].(isTriggered := "false");
        } else {
          statuses[index] := statuses[index].(isTriggered := "true");
        }
      }
      index := index + 1;
    }
    done := true;
  }

  /** Once every passed status is marked "true", a sweep asks for nothing and leaves all as it is. */
  lemma NothingWaitsNothingAsked(statuses: seq<Status>, replies: nat -> Reply)
    requires forall s :: s in statuses && s.result == "ConditionPassed" ==> s.isTriggered == "true"
    ensures Asked(statuses, |statuses|) == {}
    ensures Swept(statuses, replies, |statuses|) == statuses
    ensures AllAnswered(statuses, replies, |statuses|)
  {
    assert ToLower("true")[0] == 't';
    assert forall s :: s in statuses ==> !Waiting(s);
  }

  // ----- the protocol -------------------------------------------------------------------------

  type Pid = nat

  /**
   What a process is in the middle of: an auditor that read version `base` and is about to write it back
   with one more status, or a reconciler that read version `base` and has worked through `index` statuses
   of its copy.
   */
  datatype Work =
    | Auditing(base: nat, added: Status)
    | Reconciling(base: nat, copy: seq<Status>, index: nat)

  /**
   `versions` are all contents the object ever had, the last one being current; `asked` has the indices a
   request was sent for; `appended` is what auditors were told was stored.
   */
  datatype State = State(versions: seq<seq<Status>>, work: map<Pid, Work>, asked: set<nat>, appended: seq<Status>)

  /** New statuses are appended as not triggered. */
  function NewStatus(timeStamp: string, resource: string, resourceName: string, workflowID: string): Status {
    Status(timeStamp, resource, resourceName, "ConditionPassed", workflowID, "false")
  }

  datatype Action =
    | AuditRead(pid: Pid, version: nat, timeStamp: string, resource: string, resourceName: string, workflowID: string)
    | AuditWrite(pid: Pid)
    | ReconcileRead(pid: Pid, version: nat)
    | ReconcileStep(pid: Pid, reply: Reply)
    | ReconcileWrite(pid: Pid)
    | GiveUp(pid: Pid)

  function Current(s: State): seq<Status>
    requires s.versions != []
  {
    Last(s.versions)
  }

  ghost predicate Init(s: State) {
    |s.versions| == 1 && s.work == map[] && s.asked == {} && s.appended == []
  }

  /** Reads may be served from a cache, so they may yield any version there ever was. */
  predicate Enabled(s: State, a: Action) {
    match a
    case AuditRead(pid, v, _, _, _, _) => pid !in s.work && v < |s.versions|
    case AuditWrite(pid) => pid in s.work && s.work[pid].Auditing?
    case ReconcileRead(pid, v) => pid !in s.work && v < |s.versions|
    case ReconcileStep(pid, _) =>
      pid in s.work && s.work[pid].Reconciling? && s.work[pid].index < |s.work[pid].copy|
    case ReconcileWrite(pid) =>
      pid in s.work && s.work[pid].Reconciling? && s.work[pid].index == |s.work[pid].copy|
    case GiveUp(pid) => pid in s.work
  }

  /** A write is taken only if nothing was written since the version it is based on was read. */
  predicate Accepted(s: State, base: nat) {
    base + 1 == |s.versions|
  }

  function Apply(s: State, a: Action): State
    requires Enabled(s, a)
  {
    match a
    case AuditRead(pid, v, timeStamp, resource, resourceName, workflowID) =>
      s.(work := s.work[pid := Auditing(v, NewStatus(timeStamp, resource, resourceName, workflowID))])
    case AuditWrite(pid) =>
      var w := s.work[pid];
      if Accepted(s, w.base) then
        State(s.versions + [s.versions[w.base] + [w.added]], s.work - {pid}, s.asked, s.appended + [w.added])
      else
        s.(work := s.work - {pid})
    case ReconcileRead(pid, v) => s.(work := s.work[pid := Reconciling(v, s.versions[v], 0)])
    case ReconcileStep(pid, reply) =>
      var w := s.work[pid];
      var status := w.copy[w.index];
      if !Waiting(status) then
        s.(work := s.work[pid := w.(index := w.index + 1)])
      else if !Answered(reply) then
        s.(work := s.work - {pid}, asked := s.asked + {w.index})
      else
        s.(work := s.work[pid := Reconciling(w.base, w.copy[w.index := Marked(status, reply)], w.index + 1)],
           asked := s.asked + {w.index})
    case ReconcileWrite(pid) =>
      var w := s.work[pid];
      s.(versions := if Accepted(s, w.base) then s.versions + [w.copy] else s.versions, work := s.work - {pid})
    case GiveUp(pid) => s.(work := s.work - {pid})
  }

  /**
   after has all of before's statuses at their places, changed at most from waiting to "true" or "false",
   and perhaps more behind them. `asked` has every index that was turned to "true".
   */
  ghost predicate Grows(before: seq<Status>, after: seq<Status>, asked: set<nat>) {
    && |before| <= |after|
    && forall i: nat :: i < |before| ==>
         || after[i] == before[i]
         || (Waiting(before[i]) && after[i] == before[i].(isTriggered := "false"))
         || (Waiting(before[i]) && after[i] == before[i].(isTriggered := "true") && i in asked)
  }

  ghost predicate WorkInv(s: State, w: Work) {
    w.base < |s.versions|
    && (w.Reconciling? ==>
          |w.copy| == |s.versions[w.base]| && w.index <= |w.copy| && Grows(s.versions[w.base], w.copy, s.asked))
  }

  ghost predicate Inv(s: State) {
    s.versions != [] && forall p :: p in s.work ==> WorkInv(s, s.work[p])
  }

  lemma {:induction false} GrowsTransitive(a: seq<Status>, b: seq<Status>, c: seq<Status>, m: set<nat>, n: set<nat>)
    requires Grows(a, b, m) && Grows(b, c, n) && m <= n
    ensures Grows(a, c, n)
  {
    LowerTrue();
    forall i: nat | i < |a| && c[i] != a[i]
      ensures Waiting(a[i])
              && (c[i] == a[i].(isTriggered := "false") || (c[i] == a[i].(isTriggered := "true") && i in n))
    {
      if Waiting(b[i]) && b[i] != a[i] {
        assert b[i] == a[i].(isTriggered := "false");
      }
    }
  }

  lemma LowerTrue()
    ensures ToLower("true") != "false"
  {
    assert ToLower("true")[0] == 't';
  }

  lemma StepInv(s: State, a: Action)
    requires Inv(s) && Enabled(s, a)
    ensures Inv(Apply(s, a))
    ensures s.versions <= Apply(s, a).versions && s.asked <= Apply(s, a).asked
    ensures Grows(Current(s), Current(Apply(s, a)), Apply(s, a).asked)
    ensures var n, m := |Current(s)| - |s.appended|, |Current(Apply(s, a))| - |Apply(s, a).appended|; n == m
  {
    var s' := Apply(s, a);
    var w := if a.pid in s.work then Some(s.work[a.pid]) else None;
    if a.AuditWrite? && Accepted(s, w.value.base) {
      assert s.versions[w.value.base] == Current(s);
    }
    if a.ReconcileWrite? && Accepted(s, w.value.base) {
      assert s.versions[w.value.base] == Current(s);
    }
    if a.ReconcileStep? && Waiting(w.value.copy[w.value.index]) && Answered(a.reply) {
      SweepOneKeepsGrowth(s.versions[w.value.base], w.value.copy, w.value.index, a.reply, s.asked);
    }
    forall p | p in s'.work
      ensures WorkInv(s', s'.work[p])
    {
      if p != a.pid {
        assert WorkInv(s, s.work[p]);
      }
    }
  }

  /** Marking one more waiting status of a copy, with its request sent, keeps the copy grown from its base. */
  lemma SweepOneKeepsGrowth(base: seq<Status>, copy: seq<Status>, index: nat, reply: Reply, asked: set<nat>)
    requires Grows(base, copy, asked) && |copy| == |base| && index < |copy|
    requires Waiting(copy[index]) && Answered(reply)
    ensures Grows(base, copy[index := Marked(copy[index], reply)], asked + {index})
  {
    LowerTrue();
  }

  /** Step by step, a reconciler's copy is what its loop makes of the version it read. */
  lemma StepsFollowTheLoop(s: State, pid: Pid, replies: nat -> Reply)
    requires Inv(s) && pid in s.work && s.work[pid].Reconciling? && s.work[pid].index < |s.work[pid].copy|
    requires s.work[pid].copy == Swept(s.versions[s.work[pid].base], replies, s.work[pid].index)
    ensures var base, index := s.versions[s.work[pid].base], s.work[pid].index;
            var s' := Apply(s, ReconcileStep(pid, replies(index)));
            && s'.asked == s.asked + (if Waiting(base[index]) then {index} else {})
            && (pid !in s'.work <==> Waiting(base[index]) && !Answered(replies(index)))
            && (pid in s'.work ==> s'.work[pid].copy == Swept(base, replies, index + 1))
  {
    var base, index := s.versions[s.work[pid].base], s.work[pid].index;
    assert s.work[pid].copy[index] == base[index];
    var s' := Apply(s, ReconcileStep(pid, replies(index)));
    if pid in s'.work {
      assert forall i :: 0 <= i < |base| ==> s'.work[pid].copy[i] == Swept(base, replies, index + 1)[i];
    }
  }

  // ----- whole runs ---------------------------------------------------------------------------

  ghost predicate Run(states: seq<State>, actions: seq<Action>) {
    && |states| == |actions| + 1
    && Init(states[0])
    && forall i :: 0 <= i < |actions| ==>
         Enabled(states[i], actions[i]) && states[i + 1] == Apply(states[i], actions[i])
  }

  lemma {:induction false} RunInv(states: seq<State>, actions: seq<Action>, n: nat)
    requires Run(states, actions) && n < |states|
    ensures Inv(states[n])
    ensures states[0].versions <= states[n].versions && states[0].asked <= states[n].asked
  {
    if n > 0 {
      RunInv(states, actions, n - 1);
      StepInv(states[n - 1], actions[n - 1]);
    }
  }

  /** What one step of a run does to the object. */
  lemma StepOfRun(states: seq<State>, actions: seq<Action>, n: nat, next: nat)
    requires Run(states, actions) && next == n + 1 < |states|
    ensures states[n].versions != [] && states[next].versions != []
    ensures states[n].asked <= states[next].asked
    ensures Grows(Current(states[n]), Current(states[next]), states[next].asked)
  {
    RunInv(states, actions, n);
    StepInv(states[n], actions[n]);
  }

  /**
   Under every interleaving: what is stored at one time is still there at any later time, at the same places,
   with only isTriggered changed, and only on statuses that were waiting; whatever turned "true" was asked for.
   */
  lemma {:induction false} StatusesAreKept(states: seq<State>, actions: seq<Action>, i: nat, j: nat)
    requires Run(states, actions) && i <= j < |states|
    ensures states[i].versions != [] && states[j].versions != []
    ensures Grows(Current(states[i]), Current(states[j]), states[j].asked)
    decreases j
  {
    if i == j {
      RunInv(states, actions, i);
    } else {
      StatusesAreKept(states, actions, i, j - 1);
      StepOfRun(states, actions, j - 1, j);
      GrowsTransitive(Current(states[i]), Current(states[j - 1]), Current(states[j]),
                      states[j - 1].asked, states[j].asked);
    }
  }

  /** A status marked "true" stays exactly as it is. */
  lemma TriggeredIsFinal(states: seq<State>, actions: seq<Action>, i: nat, j: nat, k: nat)
    requires Run(states, actions) && i <= j < |states|
    requires states[i].versions != [] && k < |Current(states[i])| && Current(states[i])[k].isTriggered == "true"
    ensures states[j].versions != [] && k < |Current(states[j])| && Current(states[j])[k] == Current(states[i])[k]
  {
    StatusesAreKept(states, actions, i, j);
    LowerTrue();
  }

  /** A status is "true" only if it was from the start or a request was sent for it. */
  lemma {:induction false} TriggeredWasAsked(states: seq<State>, actions: seq<Action>, n: nat, k: nat)
    requires Run(states, actions) && n < |states|
    requires states[n].versions != [] && k < |Current(states[n])| && Current(states[n])[k].isTriggered == "true"
    ensures k in states[n].asked
            || (k < |Current(states[0])| && Current(states[0])[k].isTriggered == "true")
  {
    if n > 0 {
      RunInv(states, actions, n - 1);
      var s, s' := states[n - 1], states[n];
      StepInv(s, actions[n - 1]);
      if k < |Current(s)| && Current(s)[k].isTriggered == "true" {
        TriggeredWasAsked(states, actions, n - 1, k);
      } else if k >= |Current(s)| {
        NewStatusesWait(states, actions, n);
      }
    }
  }

  /** Whatever stands behind the initial statuses at the moment of being appended is not triggered. */
  lemma NewStatusesWait(states: seq<State>, actions: seq<Action>, n: nat)
    requires Run(states, actions) && 0 < n < |states|
    requires states[n - 1].versions != [] && states[n].versions != []
    ensures forall k :: |Current(states[n - 1])| <= k < |Current(states[n])| ==>
              Current(states[n])[k].isTriggered == "false"
  {
    RunInv(states, actions, n - 1);
    AuditorsBringNewStatuses(states, actions, n - 1);
  }

  lemma {:induction false} AuditorsBringNewStatuses(states: seq<State>, actions: seq<Action>, n: nat)
    requires Run(states, actions) && n < |states|
    ensures forall p :: p in states[n].work && states[n].work[p].Auditing? ==>
              states[n].work[p].added.isTriggered == "false"
  {
    if n > 0 {
      AuditorsBringNewStatuses(states, actions, n - 1);
      var a := actions[n - 1];
      assert Enabled(states[n - 1], a) && states[n] == Apply(states[n - 1], a);
    } else {
      assert Init(states[n]);
    }
  }

  /** The identity of a status: all but its trigger mark. */
  function Unmarked(s: Status): Status {
    s.(isTriggered := "")
  }

  function UnmarkedAll(ss: seq<Status>): (r: seq<Status>)
    ensures |r| == |ss| && forall i :: 0 <= i < |ss| ==> r[i] == Unmarked(ss[i])
  {
    seq(|ss|, i requires 0 <= i < |ss| => Unmarked(ss[i]))
  }

  /** Trigger marks aside, the object is what it was at the start followed by what auditors were told is stored. */
  lemma {:induction false} NothingIsLostOrReordered(states: seq<State>, actions: seq<Action>, n: nat)
    requires Run(states, actions) && n < |states|
    ensures states[n].versions != [] && states[0].versions != []
    ensures UnmarkedAll(Current(states[n])) == UnmarkedAll(Current(states[0])) + UnmarkedAll(states[n].appended)
  {
    RunInv(states, actions, n);
    if n > 0 {
      NothingIsLostOrReordered(states, actions, n - 1);
      RunInv(states, actions, n - 1);
      AppendStep(states[n - 1], actions[n - 1]);
      assert states[n] == Apply(states[n - 1], actions[n - 1]);
    }
  }

  /** One step appends to the object exactly what it appends to the record of stored statuses. */
  lemma AppendStep(s: State, a: Action)
    requires Inv(s) && Enabled(s, a) && Apply(s, a).versions != []
    ensures var s' := Apply(s, a);
            exists more :: s'.appended == s.appended + more
                           && UnmarkedAll(Current(s')) == UnmarkedAll(Current(s)) + UnmarkedAll(more)
  {
    var s' := Apply(s, a);
    StepInv(s, a);
    if a.AuditWrite? && Accepted(s, s.work[a.pid].base) {
      var more := [s.work[a.pid].added];
      assert s'.appended == s.appended + more;
      assert UnmarkedAll(Current(s')) == UnmarkedAll(Current(s)) + UnmarkedAll(more);
    } else {
      assert s'.appended == s.appended + [];
      assert UnmarkedAll(Current(s')) == UnmarkedAll(Current(s)) + UnmarkedAll([]);
    }
  }

  // ----- which statuses wait, and what a sweep leaves -----------------------------------------

  /** A passed status waits exactly if its mark is "false", in capitals or not. */
  lemma WaitingExactly(s: Status)
    ensures Waiting(s) <==>
            s.result == "ConditionPassed" && |s.isTriggered| == 5
            && s.isTriggered[0] in "fF" && s.isTriggered[1] in "aA" && s.isTriggered[2] in "lL"
            && s.isTriggered[3] in "sS" && s.isTriggered[4] in "eE"
  {
    LowerExactly(s.isTriggered, "false");
  }

  /** The server answered each request. */
  ghost predicate Replied(statuses: seq<Status>, replies: nat -> Reply, n: nat) {
    forall i: nat :: i < n && i < |statuses| && Waiting(statuses[i]) ==>
      replies(i) == GitopsDisabled || replies(i) == Notified
  }

  /**
   After a finished sweep a status is marked "true" if its request was answered by running the workflow, and still
   waits exactly if the answer was that this is disabled; what did not wait is as it was.
   */
  lemma SweptExactly(statuses: seq<Status>, replies: nat -> Reply, i: nat)
    requires Replied(statuses, replies, |statuses|) && i < |statuses|
    ensures AllAnswered(statuses, replies, |statuses|)
    ensures var after := Swept(statuses, replies, |statuses|)[i];
            && (!Waiting(statuses[i]) ==> after == statuses[i])
            && (Waiting(statuses[i]) && replies(i) == Notified ==> after == statuses[i].(isTriggered := "true"))
            && (Waiting(statuses[i]) && replies(i) == GitopsDisabled ==>
                  after == statuses[i].(isTriggered := "false"))
            && (Waiting(after) <==> Waiting(statuses[i]) && replies(i) == GitopsDisabled)
  {
    LowerTrue();
    LowerExactly("false", "false");
  }

  /** So a second sweep asks again for exactly the disabled ones. */
  lemma SecondSweepAsks(statuses: seq<Status>, replies: nat -> Reply)
    requires Replied(statuses, replies, |statuses|)
    ensures Asked(Swept(statuses, replies, |statuses|), |statuses|)
            == set i: nat | i < |statuses| && Waiting(statuses[i]) && replies(i) == GitopsDisabled
  {
    forall i: nat | i < |statuses|
      ensures Waiting(Swept(statuses, replies, |statuses|)[i])
              <==> Waiting(statuses[i]) && replies(i) == GitopsDisabled
    {
      SweptExactly(statuses, replies, i);
    }
  }

  /** A write is stored exactly if the object is still at the version it is based on; nothing else changes it. */
  lemma WritesStoredExactly(s: State, a: Action)
    requires Inv(s) && Enabled(s, a) && Apply(s, a).versions != []
    ensures var current := Current(Apply(s, a));
            if a.AuditWrite? && s.work[a.pid].base == |s.versions| - 1
            then current == Current(s) + [s.work[a.pid].added]
            else if a.ReconcileWrite? && s.work[a.pid].base == |s.versions| - 1 then current == s.work[a.pid].copy
            else current == Current(s) && Apply(s, a).versions == s.versions
  {
  }

  /** An auditor that nobody interferes with stores a status with the given fields, and it waits. */
  lemma AuditAlone(s: State, pid: Pid, timeStamp: string, resource: string, resourceName: string, workflowID: string)
    requires Inv(s) && pid !in s.work
    ensures var read := AuditRead(pid, |s.versions| - 1, timeStamp, resource, resourceName, workflowID);
            && Enabled(s, read) && Enabled(Apply(s, read), AuditWrite(pid))
            && var s' := Apply(Apply(s, read), AuditWrite(pid));
               var added := Status(timeStamp, resource, resourceName, "ConditionPassed", workflowID, "false");
            && s'.versions == s.versions + [Current(s) + [added]] && s'.appended == s.appended + [added]
            && pid !in s'.work && Waiting(added)
  {
    LowerExactly("false", "false");
  }

  /** The state after a reconciler read the current version and looked at k statuses. */
  ghost predicate SweptSoFar(s: State, s': State, pid: Pid, replies: nat -> Reply, k: nat)
    requires s.versions != [] && k <= |Current(s)|
  {
    s'.versions == s.versions && pid in s'.work && s'.work == s.work[pid := s'.work[pid]]
    && s'.work[pid] == Reconciling(|s.versions| - 1, Swept(Current(s), replies, k), k)
  }

  lemma LookAtOneMore(s: State, s': State, pid: Pid, replies: nat -> Reply, k: nat)
    requires s.versions != [] && k < |Current(s)| && Replied(Current(s), replies, |Current(s)|)
    requires SweptSoFar(s, s', pid, replies, k)
    ensures Enabled(s', ReconcileStep(pid, replies(k)))
    ensures SweptSoFar(s, Apply(s', ReconcileStep(pid, replies(k))), pid, replies, k + 1)
  {
    SweptOneMore(Current(s), replies, k);
    assert s'.work[pid].copy[k] == Current(s)[k];
  }

  /** A run, from any state on. */
  ghost predicate GoesFrom(s: State, actions: seq<Action>, s': State)
    decreases |actions|
  {
    if actions == [] then s' == s
    else Enabled(s, actions[0]) && GoesFrom(Apply(s, actions[0]), actions[1..], s')
  }

  lemma {:induction false} LookAtTheRest(s: State, s': State, pid: Pid, replies: nat -> Reply, k: nat)
    returns (actions: seq<Action>, s'': State)
    requires s.versions != [] && k <= |Current(s)| && Replied(Current(s), replies, |Current(s)|)
    requires SweptSoFar(s, s', pid, replies, k)
    ensures GoesFrom(s', actions, s'') && s''.versions == s.versions + [Swept(Current(s), replies, |Current(s)|)]
    ensures s''.work == s'.work - {pid}
    decreases |Current(s)| - k
  {
    if k == |Current(s)| {
      actions, s'' := [ReconcileWrite(pid)], Apply(s', ReconcileWrite(pid));
    } else {
      LookAtOneMore(s, s', pid, replies, k);
      var next := Apply(s', ReconcileStep(pid, replies(k)));
      var more;
      more, s'' := LookAtTheRest(s, next, pid, replies, k + 1);
      actions := [ReconcileStep(pid, replies(k))] + more;
      assert actions[1..] == more;
      assert next.work - {pid} == s'.work - {pid};
    }
  }

  /** A reconciler that nobody interferes with, its requests answered, stores what its loop makes of the object. */
  lemma ReconcileAlone(s: State, pid: Pid, replies: nat -> Reply) returns (actions: seq<Action>, s': State)
    requires Inv(s) && pid !in s.work && Replied(Current(s), replies, |Current(s)|)
    ensures GoesFrom(s, actions, s') && s'.versions == s.versions + [Swept(Current(s), replies, |Current(s)|)]
    ensures s'.work == s.work
  {
    var read := ReconcileRead(pid, |s.versions| - 1);
    var next := Apply(s, read);
    assert Swept(Current(s), replies, 0) == Current(s);
    var more;
    more, s' := LookAtTheRest(s, next, pid, replies, 0);
    actions := [read] + more;
    assert actions[1..] == more;
    assert next.work - {pid} == s.work;
  }

  // ----- where marks come from, over whole runs -----------------------------------------------

  /** Step j of the run was the process's request for status k, and the server's reply to it. */
  ghost predicate Answers(states: seq<State>, actions: seq<Action>, j: nat, pid: Pid, k: nat, reply: Reply)
    requires j < |actions| <= |states|
  {
    actions[j] == ReconcileStep(pid, reply) && pid in states[j].work && states[j].work[pid].Reconciling?
    && states[j].work[pid].index == k < |states[j].work[pid].copy| && Waiting(states[j].work[pid].copy[k])
  }

  /** Between steps r and n the process got a reply for status k, and it was this one. */
  ghost predicate AnsweredBetween(states: seq<State>, actions: seq<Action>, r: nat, n: nat, pid: Pid, k: nat,
                                  reply: Reply)
    requires n <= |actions| <= |states|
  {
    (reply == GitopsDisabled || reply == Notified)
    && exists j: nat :: r < j < n && Answers(states, actions, j, pid, k, reply)
  }

  /** At step n the process has been sweeping, with these replies, since it read the object at step r. */
  ghost predicate Sweeping(states: seq<State>, actions: seq<Action>, r: nat, n: nat, pid: Pid, replies: nat -> Reply)
    requires n <= |actions| < |states|
  {
    && pid in states[n].work && states[n].work[pid].Reconciling?
    && var w := states[n].work[pid];
    && w.base < |states[n].versions| && r < n && actions[r] == ReconcileRead(pid, w.base)
    && w.index <= |states[n].versions[w.base]|
    && w.copy == Swept(states[n].versions[w.base], replies, w.index)
    && forall k: nat :: k < w.index && Waiting(states[n].versions[w.base][k]) ==>
         AnsweredBetween(states, actions, r, n, pid, k, replies(k))
  }

  lemma AnsweredLater(states: seq<State>, actions: seq<Action>, r: nat, n: nat, m: nat, pid: Pid, k: nat, reply: Reply)
    requires n <= m <= |actions| <= |states| && AnsweredBetween(states, actions, r, n, pid, k, reply)
    ensures AnsweredBetween(states, actions, r, m, pid, k, reply)
  {
    var j: nat :| r < j < n && Answers(states, actions, j, pid, k, reply);
    assert r < j < m;
  }

  lemma VersionStays(states: seq<State>, actions: seq<Action>, n: nat, v: nat)
    requires Run(states, actions) && n < |actions| && v < |states[n].versions|
    ensures v < |states[n + 1].versions| && states[n + 1].versions[v] == states[n].versions[v]
  {
    RunInv(states, actions, n);
    StepInv(states[n], actions[n]);
  }

  /** A step of another process, or of a reconciler that has nothing to ask. */
  lemma SweepingGoesOn(states: seq<State>, actions: seq<Action>, r: nat, n: nat, pid: Pid, replies: nat -> Reply)
    requires Run(states, actions) && n < |actions| && Sweeping(states, actions, r, n, pid, replies)
    requires pid in states[n + 1].work && states[n + 1].work[pid] == states[n].work[pid]
    ensures Sweeping(states, actions, r, n + 1, pid, replies)
  {
    VersionStays(states, actions, n, states[n].work[pid].base);
    var w := states[n].work[pid];
    forall k: nat | k < w.index && Waiting(states[n].versions[w.base][k])
      ensures AnsweredBetween(states, actions, r, n + 1, pid, k, replies(k))
    {
      AnsweredLater(states, actions, r, n, n + 1, pid, k, replies(k));
    }
  }

  function With(replies: nat -> Reply, k: nat, reply: Reply): nat -> Reply {
    (i: nat) => if i == k then reply else replies(i)
  }

  lemma SweptWith(statuses: seq<Status>, replies: nat -> Reply, k: nat, reply: Reply)
    requires k < |statuses|
    ensures Swept(statuses, With(replies, k, reply), k) == Swept(statuses, replies, k)
    ensures Swept(statuses, replies, k)[k] == statuses[k]
    ensures Swept(statuses, With(replies, k, reply), k + 1)
            == Swept(statuses, replies, k)[
                 k := if Waiting(statuses[k]) then Marked(statuses[k], reply) else statuses[k]]
  {
  }

  /** One more status looked at. */
  lemma SweepingStep(states: seq<State>, actions: seq<Action>, r: nat, n: nat, pid: Pid, replies: nat -> Reply,
                     reply: Reply)
    requires Run(states, actions) && n < |actions| && Sweeping(states, actions, r, n, pid, replies)
    requires actions[n] == ReconcileStep(pid, reply) && pid in states[n + 1].work
    ensures Sweeping(states, actions, r, n + 1, pid, With(replies, states[n].work[pid].index, reply))
  {
    var w := states[n].work[pid];
    VersionStays(states, actions, n, w.base);
    var base := states[n].versions[w.base];
    assert Enabled(states[n], actions[n]) && states[n + 1] == Apply(states[n], actions[n]);
    SweptWith(base, replies, w.index, reply);
    assert w.copy[w.index] == base[w.index];
    NextWork(states[n], pid, reply);
    forall k: nat | k < w.index + 1 && Waiting(base[k])
      ensures AnsweredBetween(states, actions, r, n + 1, pid, k, With(replies, w.index, reply)(k))
    {
      if k == w.index {
        assert Answers(states, actions, n, pid, k, reply);
      } else {
        AnsweredLater(states, actions, r, n, n + 1, pid, k, replies(k));
      }
    }
  }

  lemma NextWork(s: State, pid: Pid, reply: Reply)
    requires Enabled(s, ReconcileStep(pid, reply)) && pid in Apply(s, ReconcileStep(pid, reply)).work
    ensures var w, status := s.work[pid], s.work[pid].copy[s.work[pid].index];
            && (Waiting(status) ==> reply == GitopsDisabled || reply == Notified)
            && Apply(s, ReconcileStep(pid, reply)).work[pid]
               == Reconciling(w.base, w.copy[w.index := if Waiting(status) then Marked(status, reply) else status],
                              w.index + 1)
  {
    var w := s.work[pid];
    assert w.copy[w.index := w.copy[w.index]] == w.copy;
  }

  /** How a reconciler's work came about: it has just read the object, or it had work before. */
  lemma WorkBefore(s: State, a: Action, pid: Pid)
    requires Enabled(s, a) && pid in Apply(s, a).work && Apply(s, a).work[pid].Reconciling?
    ensures
      || (a.ReconcileRead? && a.pid == pid && a.version < |s.versions| && Apply(s, a).versions == s.versions
          && Apply(s, a).work[pid] == Reconciling(a.version, s.versions[a.version], 0))
      || (pid in s.work && s.work[pid].Reconciling?
          && if a.pid == pid then a.ReconcileStep? else Apply(s, a).work[pid] == s.work[pid])
  {
  }

  lemma SweepBegins(states: seq<State>, actions: seq<Action>, n: nat, pid: Pid, v: nat, replies: nat -> Reply)
    requires n < |actions| < |states| && actions[n] == ReconcileRead(pid, v) && v < |states[n + 1].versions|
    requires pid in states[n + 1].work
    requires states[n + 1].work[pid] == Reconciling(v, states[n + 1].versions[v], 0)
    ensures Sweeping(states, actions, n, n + 1, pid, replies)
  {
    assert Swept(states[n + 1].versions[v], replies, 0) == states[n + 1].versions[v];
  }

  /**
   In every run, what a reconciler has in hand is what its loop makes of the version it read, with the replies it
   was given one by one since.
   */
  lemma {:induction false} ReconcilersSweep(states: seq<State>, actions: seq<Action>, n: nat, pid: Pid)
    returns (r: nat, replies: nat -> Reply)
    requires Run(states, actions) && n < |states| && pid in states[n].work && states[n].work[pid].Reconciling?
    ensures Sweeping(states, actions, r, n, pid, replies)
  {
    assert n > 0;
    var a := actions[n - 1];
    WorkBefore(states[n - 1], a, pid);
    if a.ReconcileRead? && a.pid == pid {
      r, replies := n - 1, _ => Notified;
      SweepBegins(states, actions, n - 1, pid, a.version, replies);
    } else {
      r, replies := ReconcilersSweep(states, actions, n - 1, pid);
      if a.pid == pid {
        SweepingStep(states, actions, r, n - 1, pid, replies, a.reply);
        replies := With(replies, states[n - 1].work[pid].index, a.reply);
      } else {
        SweepingGoesOn(states, actions, r, n - 1, pid, replies);
      }
    }
  }

  /**
   An accepted write of a reconciler turns the object into what its loop makes of the object as it stands, with
   replies that the server gave it: so the statuses that still wait are those whose reply was that this is disabled.
   */
  lemma AcceptedWriteIsASweep(states: seq<State>, actions: seq<Action>, n: nat) returns (r: nat, replies: nat -> Reply)
    requires Run(states, actions) && n < |actions| && actions[n].ReconcileWrite?
    requires actions[n].pid in states[n].work && states[n].work[actions[n].pid].base == |states[n].versions| - 1
    ensures states[n].versions != [] && states[n + 1].versions != []
    ensures var before, after, pid := Current(states[n]), Current(states[n + 1]), actions[n].pid;
            && after == Swept(before, replies, |before|)
            && (forall k: nat :: k < |before| && Waiting(before[k]) ==>
                  AnsweredBetween(states, actions, r, n, pid, k, replies(k)))
            && (forall k: nat :: k < |before| ==>
                  (Waiting(after[k]) <==> Waiting(before[k]) && replies(k) == GitopsDisabled))
  {
    var pid := actions[n].pid;
    RunInv(states, actions, n);
    assert Enabled(states[n], actions[n]) && states[n + 1] == Apply(states[n], actions[n]);
    r, replies := ReconcilersSweep(states, actions, n, pid);
    WritesStoredExactly(states[n], actions[n]);
    SweepLeavesWaiting(Current(states[n]), replies);
  }

  lemma SweepLeavesWaiting(statuses: seq<Status>, replies: nat -> Reply)
    ensures Replied(statuses, replies, |statuses|) ==>
              forall k: nat :: k < |statuses| ==>
                (Waiting(Swept(statuses, replies, |statuses|)[k]) <==>
                   Waiting(statuses[k]) && replies(k) == GitopsDisabled)
  {
    if Replied(statuses, replies, |statuses|) {
      forall k: nat | k < |statuses|
        ensures Waiting(Swept(statuses, replies, |statuses|)[k])
                <==> Waiting(statuses[k]) && replies(k) == GitopsDisabled
      {
        SweptExactly(statuses, replies, k);
      }
    }
  }

  /** Some process was told, before step n, that the workflow of status k was run. */
  ghost predicate WasNotified(states: seq<State>, actions: seq<Action>, n: nat, k: nat)
    requires n <= |actions| <= |states|
  {
    exists j: nat, pid :: j < n && Answers(states, actions, j, pid, k, Notified)
  }

  /** A status turns "true" only in a write by which a process stores that its workflow was run. */
  lemma TurnedTrueStep(states: seq<State>, actions: seq<Action>, n: nat, k: nat)
    requires Run(states, actions) && n < |actions| && states[n].versions != [] && states[n + 1].versions != []
    requires k < |Current(states[n + 1])| && Current(states[n + 1])[k].isTriggered == "true"
    ensures WasNotified(states, actions, n, k)
            || (k < |Current(states[n])| && Current(states[n])[k].isTriggered == "true")
  {
    var a := actions[n];
    RunInv(states, actions, n);
    assert Enabled(states[n], a) && states[n + 1] == Apply(states[n], a);
    WritesStoredExactly(states[n], a);
    if k >= |Current(states[n])| {
      NewStatusesWait(states, actions, n + 1);
    } else if a.ReconcileWrite? && states[n].work[a.pid].base == |states[n].versions| - 1 {
      var r, replies := AcceptedWriteIsASweep(states, actions, n);
      var before := Current(states[n]);
      if Waiting(before[k]) {
        var j: nat :| r < j < n && Answers(states, actions, j, a.pid, k, replies(k));
      }
    }
  }

  /** In every run a status is "true" only if it was from the start or some process was told its workflow was run. */
  lemma {:induction false} TriggeredWasNotified(states: seq<State>, actions: seq<Action>, n: nat, k: nat)
    requires Run(states, actions) && n < |states|
    requires states[n].versions != [] && k < |Current(states[n])| && Current(states[n])[k].isTriggered == "true"
    ensures states[0].versions != []
    ensures WasNotified(states, actions, n, k)
            || (k < |Current(states[0])| && Current(states[0])[k].isTriggered == "true")
  {
    RunInv(states, actions, 0);
    if n > 0 {
      RunInv(states, actions, n - 1);
      TurnedTrueStep(states, actions, n - 1, k);
      if !WasNotified(states, actions, n - 1, k) {
        TriggeredWasNotified(states, actions, n - 1, k);
      } else {
        var j: nat, pid :| j < n - 1 && Answers(states, actions, j, pid, k, Notified);
        assert j < n;
      }
    }
  }

  // ----- where stored statuses come from ------------------------------------------------------

  /** Before step n some auditor read the object to add this status. */
  ghost predicate Brought(actions: seq<Action>, n: nat, added: Status)
    requires n <= |actions|
  {
    exists j: nat :: j < n && BringsAt(actions, j, added)
  }

  predicate BringsAt(actions: seq<Action>, j: nat, added: Status)
    requires j < |actions|
  {
    actions[j].AuditRead?
    && added == Status(actions[j].timeStamp, actions[j].resource, actions[j].resourceName, "ConditionPassed",
                       actions[j].workflowID, "false")
  }

  /** Every status an auditor was told is stored, or has in hand, is new and has the fields the auditor came with. */
  lemma {:induction false} AppendedWasBrought(states: seq<State>, actions: seq<Action>, n: nat)
    requires Run(states, actions) && n < |states|
    ensures forall added :: added in states[n].appended ==> Brought(actions, n, added)
    ensures forall p :: p in states[n].work && states[n].work[p].Auditing? ==>
              Brought(actions, n, states[n].work[p].added)
  {
    if n > 0 {
      AppendedWasBrought(states, actions, n - 1);
      var a := actions[n - 1];
      assert Enabled(states[n - 1], a) && states[n] == Apply(states[n - 1], a);
      assert forall added :: Brought(actions, n - 1, added) ==> Brought(actions, n, added);
      if a.AuditRead? {
        assert BringsAt(actions, n - 1, states[n].work[a.pid].added);
      }
    }
  }
}
