/** Walking the table of versions from the stored version to the target version. */
module Upgrade {
  import opened Prelude

  /** Where an upgrade leads next, and whether a version manager has to run for it. */
  datatype Executor = Executor(nextVersion: string, hasManager: bool)

  type Table = map<string, Executor>

  /** The next version; an absent version has the zero executor. */
  function Step(t: Table, v: string): string {
    if v in t then t[v].nextVersion else ""
  }

  /** The version k steps on. */
  function Steps(t: Table, v: string, k: nat): string {
    if k == 0 then v else Step(t, Steps(t, v, k - 1))
  }

  /** No version leads back to itself. */
  ghost predicate Acyclic(t: Table) {
    forall v, k: nat :: k > 0 && v != "" ==> Steps(t, v, k) != v
  }

  ghost predicate Reaches(t: Table, v: string, target: string) {
    exists k: nat :: k > 0 && Steps(t, v, k) == target
  }

  lemma {:induction false} StepsAdd(t: Table, v: string, i: nat, j: nat)
    ensures Steps(t, v, i + j) == Steps(t, Steps(t, v, i), j)
  {
    if j > 0 {
      StepsAdd(t, v, i, j - 1);
    }
  }

  lemma {:induction false} StepsFromEmpty(t: Table, v: string, i: nat, j: nat)
    requires "" !in t && i <= j && Steps(t, v, i) == ""
    ensures Steps(t, v, j) == ""
    decreases j
  {
    if i < j {
      StepsFromEmpty(t, v, i, j - 1);
    }
  }

  /** On an acyclic table a walk does not come to a version twice. */
  lemma NoVersionTwice(t: Table, v: string, i: nat, j: nat)
    requires Acyclic(t) && i < j && Steps(t, v, i) != ""
    ensures Steps(t, v, j) != Steps(t, v, i)
  {
    StepsAdd(t, v, i, j - i);
  }

  /** The versions a walk of k steps leaves. */
  ghost function Visited(t: Table, v: string, k: nat): set<string> {
    set i: nat | i < k :: Steps(t, v, i)
  }

  /** What is left of the table after k steps, which bounds how far the walk still goes. */
  ghost function Unvisited(t: Table, v: string, k: nat): set<string> {
    t.Keys - Visited(t, v, k)
  }

  lemma OneFewerUnvisited(t: Table, v: string, k: nat)
    requires Acyclic(t) && Steps(t, v, k) in t && Steps(t, v, k) != ""
    ensures Unvisited(t, v, k + 1) < Unvisited(t, v, k)
  {
    var here := Steps(t, v, k);
    forall i: nat | i < k
      ensures Steps(t, v, i) != here
    {
      if Steps(t, v, i) != "" {
        NoVersionTwice(t, v, i, k);
      }
    }
    assert here in Unvisited(t, v, k);
    assert here in Visited(t, v, k + 1);
    assert Visited(t, v, k) <= Visited(t, v, k + 1);
  }

  predicate Runs(t: Table, v: string) {
    v in t && t[v].hasManager
  }

  /** The versions left in k steps from v that have a manager to run, in the order of the walk. */
  function RunOnTheWay(t: Table, v: string, k: nat): seq<string> {
    if k == 0 then []
    else if Runs(t, Steps(t, v, k - 1)) then RunOnTheWay(t, v, k - 1) + [Steps(t, v, k - 1)]
    else RunOnTheWay(t, v, k - 1)
  }

  datatype Outcome = Upgraded | NoPath | ManagerFailed(version: string) | VersionNotStored

  class UpgradeManager {
    const previousVersion: string
    const targetVersion: string
    var storedVersion: string
    ghost var ran: seq<string> // versions whose manager was run, successfully or not

    constructor (previousVersion: string, targetVersion: string)
      ensures this.previousVersion == previousVersion && this.targetVersion == targetVersion
      ensures storedVersion == previousVersion && ran == []
    {
      this.previousVersion, this.targetVersion := previousVersion, targetVersion;
      storedVersion, ran := previousVersion, [];
    }

    /** Succeeds exactly when the target can be reached in one or more steps. */
    method VerifyPath(t: Table) returns (ok: bool, ghost steps: nat)
      requires Acyclic(t) && "" !in t && targetVersion != ""
      ensures ok <==> Reaches(t, previousVersion, targetVersion)
      ensures ok ==> steps > 0 && Steps(t, previousVersion, steps) == targetVersion
                     && forall i :: 0 <= i < steps ==> Steps(t, previousVersion, i) != targetVersion
    {
      ghost var k: nat := 0;
      steps := 0;
      if previousVersion !in t && targetVersion !in t {
        NothingReachedFromOutside(t, previousVersion, targetVersion);
        return false, 0;
      }
      var versionIterator := previousVersion;
      while versionIterator != ""
        invariant versionIterator == Steps(t, previousVersion, k)
        invariant forall i: nat :: 0 < i <= k ==> Steps(t, previousVersion, i) != targetVersion
        decreases Unvisited(t, previousVersion, k), versionIterator != ""
      {
        if versionIterator in t {
          OneFewerUnvisited(t, previousVersion, k);
        } else {
          assert Visited(t, previousVersion, k + 1) == Visited(t, previousVersion, k) + {versionIterator};
          assert Unvisited(t, previousVersion, k + 1) == Unvisited(t, previousVersion, k);
        }
        versionIterator := Step(t, versionIterator);
        k := k + 1;
        if versionIterator == targetVersion {
          TargetIsNew(t, previousVersion, targetVersion, k);
          return true, k;
        }
      }
      forall j: nat | j > 0
        ensures Steps(t, previousVersion, j) != targetVersion
      {
        if j > k {
          StepsFromEmpty(t, previousVersion, k, j);
        }
      }
      ok := false;
    }

    /**
     Runs the managers on the way and then stores the target version. `succeeds` says which managers succeed,
     `stores` whether the database takes the new version.
     */
    method Run(t: Table, succeeds: string -> bool, stores: bool)
      returns (outcome: Outcome, ghost steps: nat, ghost done: nat)
      requires Acyclic(t) && "" !in t && targetVersion != ""
      modifies this
      ensures outcome == NoPath <==> !Reaches(t, previousVersion, targetVersion)
      ensures outcome == NoPath ==> ran == old(ran)
      ensures outcome != NoPath ==>
                Steps(t, previousVersion, steps) == targetVersion
                && forall i :: 0 <= i < steps ==> Steps(t, previousVersion, i) != targetVersion
      ensures outcome == Upgraded || outcome == VersionNotStored ==>
                && ran == old(ran) + RunOnTheWay(t, previousVersion, steps)
                && AllSucceed(RunOnTheWay(t, previousVersion, steps), succeeds)
      ensures outcome.ManagerFailed? ==>
                && done < steps && outcome.version == Steps(t, previousVersion, done) && !succeeds(outcome.version)
                && ran == old(ran) + RunOnTheWay(t, previousVersion, done) + [outcome.version]
                && AllSucceed(RunOnTheWay(t, previousVersion, done), succeeds)
      ensures (outcome == Upgraded ==> stores) && (outcome == VersionNotStored ==> !stores)
      ensures storedVersion == if outcome == Upgraded then targetVersion else old(storedVersion)
    {
      var verified: bool;
      verified, steps := VerifyPath(t);
      done := 0;
      if !verified {
        return NoPath, 0, 0;
      }
      var failed: Option<string>;
      failed, done := RunManagers(t, succeeds, steps);
      if failed.Some? {
        return ManagerFailed(failed.value), steps, done;
      }
      if !stores {
        return VersionNotStored, steps, done;
      }
      storedVersion := targetVersion;
      outcome := Upgraded;
    }

    /** Runs the managers on the way to the target, up to the first that fails. */
    method RunManagers(t: Table, succeeds: string -> bool, ghost steps: nat)
      returns (failed: Option<string>, ghost done: nat)
      requires Steps(t, previousVersion, steps) == targetVersion
      requires forall i :: 0 <= i < steps ==> Steps(t, previousVersion, i) != targetVersion
      modifies this`ran
      ensures done <= steps && AllSucceed(RunOnTheWay(t, previousVersion, done), succeeds)
      ensures failed.None? ==> done == steps && ran == old(ran) + RunOnTheWay(t, previousVersion, done)
      ensures failed.Some? ==>
                && done < steps && failed.value == Steps(t, previousVersion, done) && !succeeds(failed.value)
                && ran == old(ran) + RunOnTheWay(t, previousVersion, done) + [failed.value]
    {
      ghost var before, path := ran, RunOnTheWay(t, previousVersion, 0);
      done := 0;
      var versionIterator := previousVersion;
      while versionIterator != targetVersion
        invariant done <= steps && versionIterator == Steps(t, previousVersion, done)
        invariant path == RunOnTheWay(t, previousVersion, done) && AllSucceed(path, succeeds)
        invariant ran == before + path
        decreases steps - done
      {
        ghost var next := done + 1;
        OneStepMore(t, previousVersion, done, next, versionIterator);
        if versionIterator in t && t[versionIterator].hasManager {
          ran := ran + [versionIterator];
          if !succeeds(versionIterator) {
            return Some(versionIterator), done;
          }
          assert before + path + [versionIterator] == before + (path + [versionIterator]);
          path := path + [versionIterator];
        }
        versionIterator := Step(t, versionIterator);
        done := next;
      }
      failed := None;
    }
  }

  ghost predicate AllSucceed(versions: seq<string>, succeeds: string -> bool) {
    forall v :: v in versions ==> succeeds(v)
  }

  lemma OneStepMore(t: Table, v: string, k: nat, next: nat, here: string)
    requires next == k + 1 && here == Steps(t, v, k)
    ensures Steps(t, v, next) == Step(t, here)
    ensures RunOnTheWay(t, v, next) == if Runs(t, here) then RunOnTheWay(t, v, k) + [here] else RunOnTheWay(t, v, k)
  {
  }

  ghost predicate OnTheWay(t: Table, v: string, k: nat, x: string) {
    exists i: nat :: i < k && Steps(t, v, i) == x
  }

  lemma OnTheWayOneMore(t: Table, v: string, k: nat, next: nat, x: string)
    requires next == k + 1
    ensures OnTheWay(t, v, next, x) <==> OnTheWay(t, v, k, x) || x == Steps(t, v, k)
  {
    if OnTheWay(t, v, k, x) {
      var i: nat :| i < k && Steps(t, v, i) == x;
      assert i < next;
    }
    if OnTheWay(t, v, next, x) {
      var i: nat :| i < next && Steps(t, v, i) == x;
      assert i == k || i < k;
    }
    assert k < next;
  }

  /** A walk runs the managers of the versions it leaves, and none of them twice. */
  lemma {:induction false} ManagersRunOnce(t: Table, v: string, k: nat)
    requires Acyclic(t) && "" !in t
    ensures forall x :: x in RunOnTheWay(t, v, k) <==> OnTheWay(t, v, k, x) && Runs(t, x)
    ensures var run := RunOnTheWay(t, v, k);
            forall i, j :: 0 <= i < j < |run| ==> run[i] != run[j]
  {
    if k > 0 {
      ManagersRunOnce(t, v, k - 1);
      var here := Steps(t, v, k - 1);
      forall x
        ensures OnTheWay(t, v, k, x) <==> OnTheWay(t, v, k - 1, x) || x == here
      {
        OnTheWayOneMore(t, v, k - 1, k, x);
      }
      var before := RunOnTheWay(t, v, k - 1);
      OneStepMore(t, v, k - 1, k, here);
      assert forall x :: x in before + [here] <==> x in before || x == here;
      if here in t {
        forall i: nat | i < k - 1
          ensures Steps(t, v, i) != here
        {
          if Steps(t, v, i) == here {
            NoVersionTwice(t, v, i, k - 1);
          }
        }
        assert here !in before;
      }
    }
  }

  lemma NothingReachedFromOutside(t: Table, v: string, target: string)
    requires v !in t && target != "" && "" !in t
    ensures !Reaches(t, v, target)
  {
    forall k: nat | k > 0
      ensures Steps(t, v, k) != target
    {
      assert Steps(t, v, 1) == Step(t, Steps(t, v, 0));
      StepsFromEmpty(t, v, 1, k);
    }
  }

  /** A target that was reached was not met before. */
  lemma TargetIsNew(t: Table, v: string, target: string, k: nat)
    requires Acyclic(t) && target != "" && Steps(t, v, k) == target
    ensures forall i :: 0 <= i < k ==> Steps(t, v, i) != target
  {
    forall i | 0 <= i < k
      ensures Steps(t, v, i) != target
    {
      if Steps(t, v, i) == target {
        NoVersionTwice(t, v, i, k);
      }
    }
  }

  /** There is at most one way to get from a version to a target. */
  lemma PathIsUnique(t: Table, v: string, target: string, j: nat, k: nat)
    requires Acyclic(t) && target != "" && Steps(t, v, j) == target && Steps(t, v, k) == target
    ensures j == k
  {
    TargetIsNew(t, v, target, j);
    TargetIsNew(t, v, target, k);
  }

  // ----- the released table -------------------------------------------------------------------

  /** The entry of a release; two of the upgrades run a version manager. */
  function Release(v: string): Option<Executor> {
    match v
    case "2.3.0" => Some(Executor("2.4.0", true))
    case "2.4.0" => Some(Executor("2.5.0", false))
    case "2.5.0" => Some(Executor("2.6.0", true))
    case "2.6.0" => Some(Executor("2.7.0", false))
    case "2.7.0" => Some(Executor("2.8.0", false))
    case "2.8.0" => Some(Executor("2.9.0", false))
    case "2.9.0" => Some(Executor("2.10.0", false))
    case "2.10.0" => Some(Executor("2.11.0", false))
    case "2.11.0" => Some(Executor("2.12.0", false))
    case "2.12.0" => Some(Executor("2.13.0", false))
    case "2.13.0" => Some(Executor("2.14.0", false))
    case "2.14.0" => Some(Executor("", false))
    case _ => None
  }

  const RELEASES := {"2.3.0", "2.4.0", "2.5.0", "2.6.0", "2.7.0", "2.8.0", "2.9.0", "2.10.0", "2.11.0", "2.12.0",
                     "2.13.0", "2.14.0"}

  function GetUpgradePath(): Table {
    map v | v in RELEASES && Release(v).Some? :: Release(v).value
  }

  /** A table whose every step leads to a version of lower rank has no cycle. */
  lemma {:induction false} RankedIsAcyclic(t: Table, rank: string -> nat)
    requires "" !in t
    requires forall v :: v in t && t[v].nextVersion != "" ==> rank(t[v].nextVersion) < rank(v)
    ensures Acyclic(t)
  {
    forall v, k: nat | k > 0 && v != ""
      ensures Steps(t, v, k) != v
    {
      RankFalls(t, rank, v, k);
    }
  }

  lemma {:induction false} RankFalls(t: Table, rank: string -> nat, v: string, k: nat)
    requires "" !in t && k > 0
    requires forall v :: v in t && t[v].nextVersion != "" ==> rank(t[v].nextVersion) < rank(v)
    ensures Steps(t, v, k) == "" || rank(Steps(t, v, k)) < rank(v)
  {
    if k > 1 {
      RankFalls(t, rank, v, k - 1);
    } else {
      assert Steps(t, v, 1) == Step(t, Steps(t, v, 0));
    }
  }

  /** How many releases a listed version is behind the last one. */
  function Behind(v: string): nat {
    match v
    case "2.3.0" => 11
    case "2.4.0" => 10
    case "2.5.0" => 9
    case "2.6.0" => 8
    case "2.7.0" => 7
    case "2.8.0" => 6
    case "2.9.0" => 5
    case "2.10.0" => 4
    case "2.11.0" => 3
    case "2.12.0" => 2
    case "2.13.0" => 1
    case _ => 0
  }

  lemma ReleaseLeadsOn(v: string)
    requires Release(v).Some? && Release(v).value.nextVersion != ""
    ensures var next := Release(v).value.nextVersion;
            next in RELEASES && Release(next).Some? && Behind(v) == Behind(next) + 1
  {
  }

  /** The released table has no cycle, so the upgrade terminates, and each release leads to the next. */
  lemma ReleasedTable()
    ensures Acyclic(GetUpgradePath())
    ensures forall v :: v in GetUpgradePath() && Behind(v) > 0 ==>
              GetUpgradePath()[v].nextVersion in GetUpgradePath()
              && Behind(GetUpgradePath()[v].nextVersion) == Behind(v) - 1
  {
    var t := GetUpgradePath();
    assert "" !in t;
    forall v | v in t && t[v].nextVersion != ""
      ensures t[v].nextVersion in t && Behind(v) == Behind(t[v].nextVersion) + 1
    {
      ReleaseLeadsOn(v);
    }
    RankedIsAcyclic(t, Behind);
  }

  /** Each listed version is followed by the next one, up to the last. */
  ghost predicate Chained(t: Table, last: string) {
    && (forall v :: v in t && Behind(v) > 0 ==> t[v].nextVersion in t && Behind(t[v].nextVersion) == Behind(v) - 1)
    && (forall v :: v in t && Behind(v) == 0 ==> v == last)
  }

  lemma {:induction false} ChainReachesTheLast(t: Table, v: string, last: string)
    requires Chained(t, last) && v in t
    ensures Steps(t, v, Behind(v)) == last
    decreases Behind(v)
  {
    if Behind(v) > 0 {
      var next := t[v].nextVersion;
      assert Steps(t, v, 1) == Step(t, Steps(t, v, 0));
      ChainReachesTheLast(t, next, last);
      StepsAdd(t, v, 1, Behind(next));
    }
  }

  /** Every listed version but the last can be upgraded to the last. */
  lemma EveryReleaseReachesTheLast(v: string)
    requires v in GetUpgradePath() && Behind(v) > 0
    ensures Steps(GetUpgradePath(), v, Behind(v)) == "2.14.0"
    ensures Reaches(GetUpgradePath(), v, "2.14.0")
  {
    ReleasedTable();
    ChainReachesTheLast(GetUpgradePath(), v, "2.14.0");
  }

  /** The releases in their order. */
  const VERSIONS := ["2.3.0", "2.4.0", "2.5.0", "2.6.0", "2.7.0", "2.8.0", "2.9.0", "2.10.0", "2.11.0", "2.12.0",
                     "2.13.0", "2.14.0"]

  lemma ReleaseFollows(i: nat)
    requires i < |VERSIONS|
    ensures Step(GetUpgradePath(), VERSIONS[i]) == if i + 1 < |VERSIONS| then VERSIONS[i + 1] else ""
    ensures Runs(GetUpgradePath(), VERSIONS[i]) <==> i == 0 || i == 2
  {
  }

  /** From any release, the walk goes through the later ones in order, and ends behind the last. */
  lemma {:induction false} WalkOfReleases(i: nat, k: nat)
    requires i + k < |VERSIONS|
    ensures Steps(GetUpgradePath(), VERSIONS[i], k) == VERSIONS[i + k]
  {
    if k > 0 {
      WalkOfReleases(i, k - 1);
      ReleaseFollows(i + k - 1);
    }
  }

  /** The managers run in k steps from release i: 2.3.0's if the way starts there, 2.5.0's if it passes that. */
  function ManagersBetween(i: nat, k: nat): seq<string> {
    (if i == 0 && k > 0 then ["2.3.0"] else []) + (if i <= 2 < i + k then ["2.5.0"] else [])
  }

  lemma OneMoreRelease(t: Table, v: string, here: string, i: nat, k: nat)
    requires i + k + 1 < |VERSIONS| && v == VERSIONS[i] && here == VERSIONS[i + k] && Steps(t, v, k) == here
    requires Runs(t, here) <==> i + k == 0 || i + k == 2
    requires RunOnTheWay(t, v, k) == ManagersBetween(i, k)
    ensures RunOnTheWay(t, v, k + 1) == ManagersBetween(i, k + 1)
  {
    OneStepMore(t, v, k, k + 1, here);
  }

  lemma {:induction false} ManagersOnTheWay(t: Table, v: string, i: nat, k: nat)
    requires i + k < |VERSIONS| && v == VERSIONS[i]
    requires forall j: nat :: i + j < |VERSIONS| ==> Steps(t, v, j) == VERSIONS[i + j]
    requires forall m: nat :: m < |VERSIONS| ==> (Runs(t, VERSIONS[m]) <==> m == 0 || m == 2)
    ensures RunOnTheWay(t, v, k) == ManagersBetween(i, k)
  {
    if k > 0 {
      ManagersOnTheWay(t, v, i, k - 1);
      OneMoreRelease(t, v, VERSIONS[i + (k - 1)], i, k - 1);
    }
  }

  /** What an upgrade from one release to a later one runs. */
  lemma ManagersOfReleases(i: nat, k: nat)
    requires i + k < |VERSIONS|
    ensures RunOnTheWay(GetUpgradePath(), VERSIONS[i], k)
            == (if i == 0 && k > 0 then ["2.3.0"] else []) + (if i <= 2 < i + k then ["2.5.0"] else [])
  {
    forall j: nat | i + j < |VERSIONS|
      ensures Steps(GetUpgradePath(), VERSIONS[i], j) == VERSIONS[i + j]
    {
      WalkOfReleases(i, j);
    }
    forall m: nat | m < |VERSIONS|
      ensures Runs(GetUpgradePath(), VERSIONS[m]) <==> m == 0 || m == 2
    {
      ReleaseFollows(m);
    }
    ManagersOnTheWay(GetUpgradePath(), VERSIONS[i], i, k);
  }
}
