/**
 The two-level lock: a mutex around the table of locks, and one mutex per key. Threads run `Lock` and
 `Unlock` one atomic operation at a time, interleaved in any order.

 Callers unlock only what they locked; that is all safety needs. Freedom from deadlock needs more: a thread
 asks for a key only while every key it holds ranks lower. With a constant rank this says that a thread asks
 for a key only while it holds none.
 */
module GitLock {
  import opened Prelude

  type Thread = nat
  type Key = string
  type MutexId = nat

  /** Where a thread stands; the mutex is the one `temp` refers to. */
  datatype Place =
    | Outside
    | LockAtMap(key: Key)                   // at mapMutex.Lock() in Lock
    | LockInMap(key: Key)                   // owns the map mutex, about to look the key up
    | LockFound(key: Key, mutex: MutexId)   // about to give the map mutex back
    | LockAtKey(key: Key, mutex: MutexId)   // at temp.Lock()
    | UnlockAtMap(key: Key)
    | UnlockInMap(key: Key)
    | UnlockFound(key: Key, mutex: MutexId)
    | UnlockAtKey(key: Key, mutex: MutexId) // at temp.Unlock()

  predicate OwnsMap(p: Place) {
    p.LockInMap? || p.LockFound? || p.UnlockInMap? || p.UnlockFound?
  }

  /**
   `locked` has the mutexes that are locked, with who locked them and for which key; `held` is what each
   thread got from Lock and has not given back yet; `crashed` says an unlocked mutex was unlocked.
   */
  datatype State = State(
    mapMutex: Option<Thread>,
    gitMutex: map<Key, MutexId>,
    nextMutex: nat,
    locked: map<MutexId, (Thread, Key)>,
    place: map<Thread, Place>,
    held: map<Thread, set<Key>>,
    crashed: bool)

  ghost predicate Init(s: State) {
    s.mapMutex == None && s.gitMutex == map[] && s.locked == map[] && !s.crashed
    && s.held.Keys == s.place.Keys
    && (forall t :: t in s.place ==> s.place[t] == Outside && s.held[t] == {})
  }

  datatype Action =
    | CallLock(t: Thread, key: Key)
    | CallUnlock(t: Thread, key: Key)
    | Advance(t: Thread)

  /** The action can happen: mutexes are free where the thread needs them, and callers unlock only what they locked. */
  ghost predicate Enabled(s: State, a: Action) {
    a.t in s.place && a.t in s.held && !s.crashed
    && match a
       case CallLock(t, key) => s.place[t] == Outside
       case CallUnlock(t, key) => s.place[t] == Outside && key in s.held[t]
       case Advance(t) => s.place[t] != Outside && !Blocked(s, t)
  }

  predicate Blocked(s: State, t: Thread)
    requires t in s.place
  {
    match s.place[t]
    case LockAtMap(_) => s.mapMutex.Some?
    case UnlockAtMap(_) => s.mapMutex.Some?
    case LockAtKey(_, m) => m in s.locked
    case _ => false
  }

  function Moved(s: State, t: Thread, p: Place): State {
    s.(place := s.place[t := p])
  }

  /** Where the thread goes from where it stands. */
  function NextPlace(s: State, t: Thread): Place
    requires t in s.place
  {
    match s.place[t]
    case Outside => Outside
    case LockAtMap(key) => LockInMap(key)
    case LockInMap(key) => LockFound(key, if key in s.gitMutex then s.gitMutex[key] else s.nextMutex)
    case LockFound(key, m) => LockAtKey(key, m)
    case LockAtKey(_, _) => Outside
    case UnlockAtMap(key) => UnlockInMap(key)
    case UnlockInMap(key) =>
      // a missing key makes Unlock return without giving the map mutex back
      if key in s.gitMutex then UnlockFound(key, s.gitMutex[key]) else Outside
    case UnlockFound(key, m) => UnlockAtKey(key, m)
    case UnlockAtKey(_, _) => Outside
  }

  /** What the thread does to mutexes and table on its way. */
  function Effect(s: State, t: Thread): State
    requires t in s.place && t in s.held
  {
    match s.place[t]
    case LockAtMap(_) => s.(mapMutex := Some(t))
    case LockInMap(key) =>
      if key in s.gitMutex then s
      else s.(gitMutex := s.gitMutex[key := s.nextMutex], nextMutex := s.nextMutex + 1)
    case LockFound(_, _) => s.(mapMutex := None)
    case LockAtKey(key, m) => s.(locked := s.locked[m := (t, key)], held := s.held[t := s.held[t] + {key}])
    case UnlockAtMap(_) => s.(mapMutex := Some(t))
    case UnlockFound(_, _) => s.(mapMutex := None)
    case UnlockAtKey(key, m) =>
      s.(crashed := m !in s.locked, locked := s.locked - {m}, held := s.held[t := s.held[t] - {key}])
    case _ => s
  }

  function Apply(s: State, a: Action): State
    requires a.t in s.place && a.t in s.held
  {
    match a
    case CallLock(t, key) => Moved(s, t, LockAtMap(key))
    case CallUnlock(t, key) => Moved(s, t, UnlockAtMap(key))
    case Advance(t) => Moved(Effect(s, t), t, NextPlace(s, t))
  }

  // ----- the invariant ------------------------------------------------------------------------

  ghost predicate MapMutexInv(s: State) {
    forall t :: t in s.place ==> (OwnsMap(s.place[t]) <==> s.mapMutex == Some(t))
  }

  ghost predicate TableInv(s: State) {
    && (forall k :: k in s.gitMutex ==> s.gitMutex[k] < s.nextMutex)
    && (forall k, l :: k in s.gitMutex && l in s.gitMutex && k != l ==> s.gitMutex[k] != s.gitMutex[l])
  }

  /** What is locked and what is held are the same thing. */
  ghost predicate HeldInv(s: State) {
    && s.held.Keys == s.place.Keys
    && (forall t, k :: t in s.held && k in s.held[t] ==>
          k in s.gitMutex && s.gitMutex[k] in s.locked && s.locked[s.gitMutex[k]] == (t, k))
    && (forall m :: m in s.locked ==>
          var (t, k) := s.locked[m];
          t in s.held && k in s.held[t] && k in s.gitMutex && s.gitMutex[k] == m)
  }

  ghost predicate PlaceInv(s: State, t: Thread)
    requires t in s.place && t in s.held
  {
    match s.place[t]
    case Outside => true
    case LockAtMap(_) => true
    case LockInMap(_) => true
    case LockFound(key, m) => key in s.gitMutex && s.gitMutex[key] == m
    case LockAtKey(key, m) => key in s.gitMutex && s.gitMutex[key] == m
    case UnlockAtMap(key) => key in s.held[t]
    case UnlockInMap(key) => key in s.held[t]
    case UnlockFound(key, m) => key in s.held[t] && key in s.gitMutex && s.gitMutex[key] == m
    case UnlockAtKey(key, m) => key in s.held[t] && key in s.gitMutex && s.gitMutex[key] == m
  }

  ghost predicate Inv(s: State) {
    && !s.crashed && MapMutexInv(s) && TableInv(s) && HeldInv(s)
    && (forall t :: t in s.place ==> PlaceInv(s, t))
  }

  lemma InitInv(s: State)
    requires Init(s)
    ensures Inv(s)
  {
  }

  lemma StepKeepsMapMutex(s: State, a: Action)
    requires Inv(s) && Enabled(s, a)
    ensures MapMutexInv(Apply(s, a))
  {
    var s' := Apply(s, a);
    assert PlaceInv(s, a.t);
    assert OwnsMap(s.place[a.t]) <==> s.mapMutex == Some(a.t);
    assert OwnsMap(s'.place[a.t]) <==> s'.mapMutex == Some(a.t);
    forall t | t in s'.place && t != a.t
      ensures OwnsMap(s'.place[t]) <==> s'.mapMutex == Some(t)
    {
      assert s'.place[t] == s.place[t];
    }
  }

  /** A step leaves other threads alone. */
  lemma StepOutline(s: State, a: Action)
    requires a.t in s.place && a.t in s.held
    ensures var s' := Apply(s, a);
            && s'.place == s.place[a.t := s'.place[a.t]]
            && s'.held == s.held[a.t := s'.held[a.t]]
  {
    EffectOnHeld(s, a.t);
    assert s.held == s.held[a.t := s.held[a.t]];
  }

  lemma EffectOnHeld(s: State, t: Thread)
    requires t in s.place && t in s.held
    ensures Effect(s, t).place == s.place && t in Effect(s, t).held
    ensures Effect(s, t).held == s.held[t := Effect(s, t).held[t]]
  {
    assert s.held == s.held[t := s.held[t]];
  }

  lemma EffectOnTable(s: State, t: Thread)
    requires t in s.place && t in s.held
    ensures var s' := Effect(s, t);
            && (if s.place[t].LockInMap? && s.place[t].key !in s.gitMutex
                then s'.gitMutex == s.gitMutex[s.place[t].key := s.nextMutex] && s'.nextMutex == s.nextMutex + 1
                else s'.gitMutex == s.gitMutex && s'.nextMutex == s.nextMutex)
            && (s'.mapMutex == s.mapMutex || s'.mapMutex == Some(t) || s'.mapMutex == None)
  {
  }

  /** All but one step leave the table alone, and the map mutex is taken or given back only by the thread itself. */
  lemma TableOutline(s: State, a: Action)
    requires a.t in s.place && a.t in s.held
    ensures var s' := Apply(s, a);
            && ((s'.gitMutex == s.gitMutex && s'.nextMutex == s.nextMutex)
                || (a.Advance? && s.place[a.t].LockInMap? && s.place[a.t].key !in s.gitMutex
                    && s'.gitMutex == s.gitMutex[s.place[a.t].key := s.nextMutex] && s'.nextMutex == s.nextMutex + 1))
            && (s'.mapMutex == s.mapMutex || s'.mapMutex == Some(a.t) || s'.mapMutex == None)
  {
    EffectOnTable(s, a.t);
  }

  /** Unlocking finds the mutex locked. */
  lemma StepDoesNotCrash(s: State, a: Action)
    requires Inv(s) && Enabled(s, a)
    ensures !Apply(s, a).crashed
  {
    assert PlaceInv(s, a.t);
  }

  lemma StepKeepsTable(s: State, a: Action)
    requires Inv(s) && Enabled(s, a)
    ensures TableInv(Apply(s, a))
    ensures Apply(s, a).place.Keys == s.place.Keys == Apply(s, a).held.Keys
    ensures forall k :: k in s.gitMutex ==> k in Apply(s, a).gitMutex && Apply(s, a).gitMutex[k] == s.gitMutex[k]
  {
    StepOutline(s, a);
    TableOutline(s, a);
    TableGrows(s, Apply(s, a), if a.Advance? && s.place[a.t].LockInMap? then s.place[a.t].key else "");
  }

  lemma TableGrows(s: State, s': State, key: Key)
    requires TableInv(s)
    requires (s'.gitMutex == s.gitMutex && s'.nextMutex == s.nextMutex)
             || (key !in s.gitMutex && s'.gitMutex == s.gitMutex[key := s.nextMutex] && s'.nextMutex == s.nextMutex + 1)
    ensures TableInv(s')
    ensures forall k :: k in s.gitMutex ==> k in s'.gitMutex && s'.gitMutex[k] == s.gitMutex[k]
  {
  }

  lemma LockingKeepsHeld(s: State, t: Thread)
    requires Inv(s) && Enabled(s, Advance(t)) && s.place[t].LockAtKey?
    ensures HeldInv(Apply(s, Advance(t)))
  {
    assert PlaceInv(s, t);
    var s', key, m := Apply(s, Advance(t)), s.place[t].key, s.place[t].mutex;
    assert s'.held.Keys == s'.place.Keys;
    forall u, l | u in s'.held && l in s'.held[u]
      ensures l in s.gitMutex && s.gitMutex[l] in s'.locked && s'.locked[s.gitMutex[l]] == (u, l)
    {
      if (u, l) != (t, key) {
        assert l in s.held[u] && s.gitMutex[l] in s.locked;
      }
    }
    forall n | n in s'.locked
      ensures var (u, l) := s'.locked[n];
              u in s'.held && l in s'.held[u] && l in s.gitMutex && s.gitMutex[l] == n
    {
    }
  }

  lemma UnlockingKeepsHeld(s: State, t: Thread)
    requires Inv(s) && Enabled(s, Advance(t)) && s.place[t].UnlockAtKey?
    ensures HeldInv(Apply(s, Advance(t)))
  {
    assert PlaceInv(s, t);
    var s', key, m := Apply(s, Advance(t)), s.place[t].key, s.place[t].mutex;
    assert s.locked[m] == (t, key);
    assert s'.held.Keys == s'.place.Keys;
    forall u, l | u in s'.held && l in s'.held[u]
      ensures l in s.gitMutex && s.gitMutex[l] in s'.locked && s'.locked[s.gitMutex[l]] == (u, l)
    {
      assert l in s.held[u] && (u, l) != (t, key);
      assert s.locked[s.gitMutex[l]] == (u, l);
    }
    forall n | n in s'.locked
      ensures var (u, l) := s'.locked[n];
              u in s'.held && l in s'.held[u] && l in s.gitMutex && s.gitMutex[l] == n
    {
      assert n in s.locked && n != m;
    }
  }

  /** Nothing else locks or unlocks a key. */
  lemma OthersLeaveLocksAlone(s: State, a: Action)
    requires Enabled(s, a) && !(a.Advance? && (s.place[a.t].LockAtKey? || s.place[a.t].UnlockAtKey?))
    ensures Apply(s, a).held == s.held && Apply(s, a).locked == s.locked
  {
  }

  lemma SameLocksHold(s: State, s': State)
    requires HeldInv(s) && s'.held == s.held && s'.locked == s.locked && s'.place.Keys == s.place.Keys
    requires forall k :: k in s.gitMutex ==> k in s'.gitMutex && s'.gitMutex[k] == s.gitMutex[k]
    ensures HeldInv(s')
  {
  }

  lemma StepKeepsHeld(s: State, a: Action)
    requires Inv(s) && Enabled(s, a)
    ensures HeldInv(Apply(s, a))
  {
    if a.Advance? && s.place[a.t].LockAtKey? {
      LockingKeepsHeld(s, a.t);
    } else if a.Advance? && s.place[a.t].UnlockAtKey? {
      UnlockingKeepsHeld(s, a.t);
    } else {
      OthersLeaveLocksAlone(s, a);
      StepKeepsTable(s, a);
      SameLocksHold(s, Apply(s, a));
    }
  }

  /** A thread's standing does not suffer from a step of another thread. */
  lemma OthersKeepPlace(s: State, s': State, t: Thread)
    requires t in s.place && t in s.held && PlaceInv(s, t)
    requires t in s'.place && t in s'.held && s'.place[t] == s.place[t] && s'.held[t] == s.held[t]
    requires forall k :: k in s.gitMutex ==> k in s'.gitMutex && s'.gitMutex[k] == s.gitMutex[k]
    ensures PlaceInv(s', t)
  {
  }

  lemma OwnPlaceIsKept(s: State, a: Action)
    requires Inv(s) && Enabled(s, a) && a.t in Apply(s, a).place && a.t in Apply(s, a).held
    ensures PlaceInv(Apply(s, a), a.t)
  {
    assert PlaceInv(s, a.t);
  }

  lemma StepKeepsPlaces(s: State, a: Action)
    requires Inv(s) && Enabled(s, a)
    ensures forall t :: t in Apply(s, a).place ==> t in Apply(s, a).held && PlaceInv(Apply(s, a), t)
  {
    StepOutline(s, a);
    StepKeepsTable(s, a);
    OwnPlaceIsKept(s, a);
    forall t | t in s.place && t != a.t
      ensures t in Apply(s, a).held && PlaceInv(Apply(s, a), t)
    {
      OthersKeepPlace(s, Apply(s, a), t);
    }
  }

  lemma StepInv(s: State, a: Action)
    requires Inv(s) && Enabled(s, a)
    ensures Inv(Apply(s, a))
  {
    StepKeepsMapMutex(s, a);
    StepDoesNotCrash(s, a);
    StepKeepsTable(s, a);
    StepKeepsHeld(s, a);
    StepKeepsPlaces(s, a);
  }

  // ----- whole runs ---------------------------------------------------------------------------

  /** States of a run, each reached from the one before by an enabled action of some thread. */
  ghost predicate Run(states: seq<State>, actions: seq<Action>) {
    && |states| == |actions| + 1
    && Init(states[0])
    && forall i :: 0 <= i < |actions| ==>
         Enabled(states[i], actions[i]) && states[i + 1] == Apply(states[i], actions[i])
  }

  lemma {:induction false} RunInv(states: seq<State>, actions: seq<Action>, n: nat)
    requires Run(states, actions) && n < |states|
    ensures Inv(states[n])
  {
    if n == 0 {
      InitInv(states[0]);
    } else {
      RunInv(states, actions, n - 1);
      StepInv(states[n - 1], actions[n - 1]);
    }
  }

  lemma TableOfRun(states: seq<State>, actions: seq<Action>, n: nat)
    requires Run(states, actions) && n < |states|
    ensures forall k, l :: k in states[n].gitMutex && l in states[n].gitMutex && k != l ==>
              states[n].gitMutex[k] != states[n].gitMutex[l]
  {
    RunInv(states, actions, n);
  }

  /** What one step of a run does to the table. */
  lemma StepOfRun(states: seq<State>, actions: seq<Action>, n: nat)
    requires Run(states, actions) && n + 1 < |states|
    ensures states[n + 1].place.Keys == states[n].place.Keys
    ensures forall k :: k in states[n].gitMutex ==>
              k in states[n + 1].gitMutex && states[n + 1].gitMutex[k] == states[n].gitMutex[k]
  {
    RunInv(states, actions, n);
    StepKeepsTable(states[n], actions[n]);
  }

  /** No two threads hold one key, and a held key's mutex is locked by its holder. */
  lemma MutualExclusion(states: seq<State>, actions: seq<Action>, n: nat)
    requires Run(states, actions) && n < |states|
    ensures var s := states[n];
            && (forall t, u, k :: t in s.held && u in s.held && k in s.held[t] && k in s.held[u] ==> t == u)
            && (forall t, k :: t in s.held && k in s.held[t] ==> k in s.gitMutex && s.gitMutex[k] in s.locked)
  {
    RunInv(states, actions, n);
    var s := states[n];
    forall t, u, k | t in s.held && u in s.held && k in s.held[t] && k in s.held[u]
      ensures t == u
    {
      assert s.locked[s.gitMutex[k]] == (t, k);
      assert s.locked[s.gitMutex[k]] == (u, k);
    }
  }

  /** Once a key has a mutex it keeps it, and no other key ever gets the same one. */
  lemma {:induction false} MutexIsNeverReplaced(states: seq<State>, actions: seq<Action>,
                                                i: nat, j: nat, k: Key)
    requires Run(states, actions) && i <= j < |states|
    requires k in states[i].gitMutex
    ensures k in states[j].gitMutex && states[j].gitMutex[k] == states[i].gitMutex[k]
    ensures forall l :: l in states[j].gitMutex && states[j].gitMutex[l] == states[i].gitMutex[k] ==> l == k
    decreases j
  {
    if i == j {
      TableOfRun(states, actions, j);
    } else {
      MutexIsNeverReplaced(states, actions, i, j - 1, k);
      StepOfRun(states, actions, j - 1);
      assert k in states[j - 1].gitMutex;
      TableOfRun(states, actions, j);
    }
  }

  /** Unlock never finds its key missing, and never unlocks an unlocked mutex. */
  lemma UnlockFindsItsKeyLocked(states: seq<State>, actions: seq<Action>, n: nat, t: Thread)
    requires Run(states, actions) && n < |states| && t in states[n].place
    ensures var s := states[n];
            && !s.crashed
            && (s.place[t].UnlockInMap? ==> s.place[t].key in s.gitMutex)
            && (s.place[t].UnlockAtKey? ==> s.place[t].mutex in s.locked
                                            && s.locked[s.place[t].mutex] == (t, s.place[t].key))
  {
    RunInv(states, actions, n);
    assert PlaceInv(states[n], t);
  }

  /** Whoever owns the map mutex can move on at once; in particular it does not wait for a key. */
  lemma MapOwnerNeverWaits(states: seq<State>, actions: seq<Action>, n: nat, t: Thread)
    requires Run(states, actions) && n < |states|
    requires t in states[n].place && states[n].mapMutex == Some(t)
    ensures Enabled(states[n], Advance(t))
  {
    RunInv(states, actions, n);
  }

  // ----- holding and waiting ------------------------------------------------------------------

  /** With this step the thread's call of Lock for the key returns. */
  predicate LockReturns(s: State, a: Action, t: Thread, key: Key) {
    a == Advance(t) && t in s.place && s.place[t].LockAtKey? && s.place[t].key == key
  }

  /** With this step the thread's call of Unlock for the key returns. */
  predicate UnlockReturns(s: State, a: Action, t: Thread, key: Key) {
    a == Advance(t) && t in s.place && s.place[t].UnlockAtKey? && s.place[t].key == key
  }

  lemma HeldAfter(s: State, a: Action, t: Thread, key: Key)
    requires Inv(s) && Enabled(s, a) && t in s.held && t in Apply(s, a).held
    ensures key in Apply(s, a).held[t] <==>
            LockReturns(s, a, t, key) || (key in s.held[t] && !UnlockReturns(s, a, t, key))
  {
    StepOutline(s, a);
    assert PlaceInv(s, a.t);
  }

  /** The thread's last call for the key, of those that returned before step n, was one of Lock. */
  ghost predicate LockedLast(states: seq<State>, actions: seq<Action>, n: nat, t: Thread, key: Key)
    requires n <= |actions| <= |states|
  {
    exists i :: 0 <= i < n && LockReturns(states[i], actions[i], t, key)
                && forall j :: i < j < n ==> !UnlockReturns(states[j], actions[j], t, key)
  }

  lemma LockedLastStep(states: seq<State>, actions: seq<Action>, n: nat, t: Thread, key: Key)
    requires 0 < n <= |actions| <= |states|
    ensures LockedLast(states, actions, n, t, key) <==>
            LockReturns(states[n - 1], actions[n - 1], t, key)
            || (LockedLast(states, actions, n - 1, t, key) && !UnlockReturns(states[n - 1], actions[n - 1], t, key))
  {
    if LockedLast(states, actions, n - 1, t, key) && !UnlockReturns(states[n - 1], actions[n - 1], t, key) {
      var i :| 0 <= i < n - 1 && LockReturns(states[i], actions[i], t, key)
               && forall j :: i < j < n - 1 ==> !UnlockReturns(states[j], actions[j], t, key);
      assert LockedLast(states, actions, n, t, key);
    }
  }

  /** In every run a thread holds a key exactly if its last call for that key, of those that returned, was of Lock. */
  lemma {:induction false} HeldExactly(states: seq<State>, actions: seq<Action>, n: nat, t: Thread, key: Key)
    requires Run(states, actions) && n < |states| && t in states[0].held
    ensures t in states[n].held
    ensures key in states[n].held[t] <==> LockedLast(states, actions, n, t, key)
  {
    if n > 0 {
      HeldExactly(states, actions, n - 1, t, key);
      RunInv(states, actions, n - 1);
      OthersStayHolders(states[n - 1], actions[n - 1], t);
      HeldAfter(states[n - 1], actions[n - 1], t, key);
      LockedLastStep(states, actions, n, t, key);
    }
  }

  lemma OthersStayHolders(s: State, a: Action, t: Thread)
    requires Enabled(s, a) && t in s.held
    ensures t in Apply(s, a).held
  {
    StepOutline(s, a);
  }

  /** A thread that waits for a key can lock it exactly if no thread holds it. */
  lemma WaitsExactly(states: seq<State>, actions: seq<Action>, n: nat, t: Thread)
    requires Run(states, actions) && n < |states| && t in states[n].place && states[n].place[t].LockAtKey?
    ensures var s := states[n];
            Enabled(s, Advance(t)) <==> forall u :: u in s.held ==> s.place[t].key !in s.held[u]
  {
    RunInv(states, actions, n);
    assert PlaceInv(states[n], t);
  }

  // ----- deadlock -----------------------------------------------------------------------------

  type Ranking = Key -> nat

  ghost predicate Asks(s: State, t: Thread, key: Key, rank: Ranking)
    requires t in s.held
  {
    forall k :: k in s.held[t] ==> rank(k) < rank(key)
  }

  /** The rule for callers: lock only what ranks above all you hold. */
  ghost predicate KeepsOrder(s: State, a: Action, rank: Ranking) {
    a.CallLock? && a.t in s.held ==> Asks(s, a.t, a.key, rank)
  }

  /** Whoever is about to lock a key asks for it in order. */
  ghost predicate OrderInv(s: State, rank: Ranking) {
    forall t :: t in s.place && t in s.held && Locking(s.place[t]) ==> Asks(s, t, s.place[t].key, rank)
  }

  predicate Locking(p: Place) {
    p.LockAtMap? || p.LockInMap? || p.LockFound? || p.LockAtKey?
  }

  lemma StepKeepsOrder(s: State, a: Action, rank: Ranking)
    requires OrderInv(s, rank) && Enabled(s, a) && KeepsOrder(s, a, rank)
    ensures OrderInv(Apply(s, a), rank)
  {
    var s' := Apply(s, a);
    forall t | t in s'.place && t in s'.held && Locking(s'.place[t])
      ensures Asks(s', t, s'.place[t].key, rank)
    {
      if t == a.t {
        LockingHoldsTheSame(s, a);
      } else {
        assert s'.place[t] == s.place[t] && s'.held[t] == s.held[t];
      }
    }
  }

  /** On its way into a lock a thread holds what it held. */
  lemma LockingHoldsTheSame(s: State, a: Action)
    requires Enabled(s, a) && Locking(Apply(s, a).place[a.t])
    ensures Apply(s, a).held == s.held
    ensures a.CallLock? ==> Apply(s, a).place[a.t].key == a.key
    ensures !a.CallLock? ==> Locking(s.place[a.t]) && Apply(s, a).place[a.t].key == s.place[a.t].key
  {
  }

  /** A run in which every thread keeps to the order. */
  ghost predicate OrderedRun(states: seq<State>, actions: seq<Action>, rank: Ranking) {
    Run(states, actions) && forall i :: 0 <= i < |actions| ==> KeepsOrder(states[i], actions[i], rank)
  }

  lemma {:induction false} OrderedRunInv(states: seq<State>, actions: seq<Action>, rank: Ranking, n: nat)
    requires OrderedRun(states, actions, rank) && n < |states|
    ensures OrderInv(states[n], rank)
  {
    if n > 0 {
      OrderedRunInv(states, actions, rank, n - 1);
      StepKeepsOrder(states[n - 1], actions[n - 1], rank);
    }
  }

  /** The thread can go on: with Lock or Unlock, or with the work it took a lock for. */
  ghost predicate CanGoOn(s: State, t: Thread) {
    t in s.place && t in s.held
    && if s.place[t] == Outside then s.held[t] != {} else Enabled(s, Advance(t))
  }

  ghost function WaitingAbove(s: State, r: int, rank: Ranking): set<Thread> {
    set t | t in s.place && s.place[t].LockAtKey? && rank(s.place[t].key) > r
  }

  /** From a thread that waits for a key, following holders leads to one that can go on. */
  lemma {:induction false} FollowHolders(s: State, t: Thread, rank: Ranking) returns (u: Thread)
    requires Inv(s) && OrderInv(s, rank) && s.mapMutex == None
    requires t in s.place && s.place[t].LockAtKey?
    ensures CanGoOn(s, u)
    decreases WaitingAbove(s, rank(s.place[t].key), rank)
  {
    var key, m := s.place[t].key, s.place[t].mutex;
    assert PlaceInv(s, t);
    if m !in s.locked {
      return t;
    }
    u := s.locked[m].0;
    assert key == s.locked[m].1 && key in s.held[u];
    if s.place[u].LockAtKey? {
      assert Asks(s, u, s.place[u].key, rank);
      assert rank(key) < rank(s.place[u].key);
      assert u in WaitingAbove(s, rank(key), rank);
      assert u !in WaitingAbove(s, rank(s.place[u].key), rank);
      u := FollowHolders(s, u, rank);
    }
  }

  /** No deadlock: as long as some thread is inside Lock or Unlock, some thread can go on. */
  lemma NoDeadlock(states: seq<State>, actions: seq<Action>, rank: Ranking, n: nat, t: Thread)
    requires OrderedRun(states, actions, rank) && n < |states|
    requires t in states[n].place && states[n].place[t] != Outside
    ensures exists u :: CanGoOn(states[n], u)
  {
    RunInv(states, actions, n);
    OrderedRunInv(states, actions, rank, n);
    var s := states[n];
    MapOwnerIsAThread(states, actions, n);
    if s.mapMutex.Some? {
      assert CanGoOn(s, s.mapMutex.value);
    } else if s.place[t].LockAtKey? {
      var u := FollowHolders(s, t, rank);
    } else {
      assert CanGoOn(s, t);
    }
  }

  lemma {:induction false} MapOwnerIsAThread(states: seq<State>, actions: seq<Action>, n: nat)
    requires Run(states, actions) && n < |states|
    ensures states[n].mapMutex.Some? ==> states[n].mapMutex.value in states[n].place
  {
    if n > 0 {
      MapOwnerIsAThread(states, actions, n - 1);
      MapOwnerStep(states[n - 1], actions[n - 1]);
    }
  }

  lemma MapOwnerStep(s: State, a: Action)
    requires s.mapMutex.Some? ==> s.mapMutex.value in s.place
    requires a.t in s.place && a.t in s.held
    ensures var s' := Apply(s, a); s'.mapMutex.Some? ==> s'.mapMutex.value in s'.place
  {
    StepOutline(s, a);
    TableOutline(s, a);
  }

  // ----- out of order -------------------------------------------------------------------------

  /** The thread waits for a key that one of the given threads holds. */
  ghost predicate WaitsFor(s: State, t: Thread, ts: set<Thread>) {
    && t in s.place && s.place[t].LockAtKey?
    && exists u :: u in ts && u in s.held && s.place[t].key in s.held[u]
  }

  /** Threads that each wait for a key that one of them holds. */
  ghost predicate Knot(s: State, ts: set<Thread>) {
    ts != {} && forall t :: t in ts ==> WaitsFor(s, t, ts)
  }

  lemma WaitingCannotMove(s: State, t: Thread, ts: set<Thread>)
    requires Inv(s) && WaitsFor(s, t, ts)
    ensures !CanGoOn(s, t) && forall a :: Enabled(s, a) ==> a.t != t
  {
    assert PlaceInv(s, t);
  }

  /** Only a thread's own step changes where it stands and what it holds. */
  lemma OthersStay(s: State, a: Action, t: Thread)
    requires Enabled(s, a) && a.t != t
    ensures t in s.place ==> t in Apply(s, a).place && Apply(s, a).place[t] == s.place[t]
    ensures t in s.held ==> t in Apply(s, a).held && Apply(s, a).held[t] == s.held[t]
  {
    StepOutline(s, a);
  }

  lemma StepKeepsKnot(s: State, a: Action, ts: set<Thread>)
    requires Knot(s, ts) && Enabled(s, a) && a.t !in ts
    ensures Knot(Apply(s, a), ts)
  {
    forall t | t in ts
      ensures WaitsFor(Apply(s, a), t, ts)
    {
      assert WaitsFor(s, t, ts);
      var u :| u in ts && u in s.held && s.place[t].key in s.held[u];
      OthersStay(s, a, t);
      OthersStay(s, a, u);
    }
  }

  lemma KnotCannotMove(states: seq<State>, actions: seq<Action>, n: nat, ts: set<Thread>)
    requires Run(states, actions) && n < |states| && Knot(states[n], ts)
    ensures forall t :: t in ts ==> !CanGoOn(states[n], t)
    ensures forall a :: Enabled(states[n], a) ==> a.t !in ts
  {
    RunInv(states, actions, n);
    forall t | t in ts
      ensures !CanGoOn(states[n], t) && forall a :: Enabled(states[n], a) ==> a.t != t
    {
      WaitingCannotMove(states[n], t, ts);
    }
  }

  lemma KnotStaysOneStep(states: seq<State>, actions: seq<Action>, n: nat, ts: set<Thread>)
    requires Run(states, actions) && n < |actions| && Knot(states[n], ts)
    ensures Knot(states[n + 1], ts)
  {
    KnotCannotMove(states, actions, n, ts);
    StepKeepsKnot(states[n], actions[n], ts);
  }

  /** What every step keeps stays. */
  lemma {:induction false} Stays(states: seq<State>, holds: State -> bool, i: nat, j: nat)
    requires i <= j < |states| && holds(states[i])
    requires forall n :: 0 <= n < |states| - 1 && holds(states[n]) ==> holds(states[n + 1])
    ensures holds(states[j])
    decreases j
  {
    if i < j {
      Stays(states, holds, i, j - 1);
      assert holds(states[j - 1 + 1]);
    }
  }

  lemma KnotStays(states: seq<State>, actions: seq<Action>, i: nat, j: nat, ts: set<Thread>)
    requires Run(states, actions) && i <= j < |states| && Knot(states[i], ts)
    ensures Knot(states[j], ts)
  {
    forall n | 0 <= n < |actions| && Knot(states[n], ts)
      ensures Knot(states[n + 1], ts)
    {
      KnotStaysOneStep(states, actions, n, ts);
    }
    Stays(states, (s: State) => Knot(s, ts), i, j);
  }

  /** Such threads are stuck: in no later state of the run can one of them take a step. */
  lemma KnotIsForGood(states: seq<State>, actions: seq<Action>, i: nat, j: nat, ts: set<Thread>)
    requires Run(states, actions) && i <= j < |states| && Knot(states[i], ts)
    ensures forall t :: t in ts ==> !CanGoOn(states[j], t)
    ensures forall a :: Enabled(states[j], a) ==> a.t !in ts
  {
    KnotStays(states, actions, i, j, ts);
    KnotCannotMove(states, actions, j, ts);
  }

  ghost function Waiting(s: State): set<Thread> {
    set t | t in s.place && s.place[t].LockAtKey?
  }

  /** That is the only kind of deadlock. */
  lemma DeadlockIsAKnot(states: seq<State>, actions: seq<Action>, n: nat, t: Thread)
    requires Run(states, actions) && n < |states|
    requires t in states[n].place && states[n].place[t] != Outside
    requires forall u :: !CanGoOn(states[n], u)
    ensures Knot(states[n], Waiting(states[n]))
  {
    RunInv(states, actions, n);
    MapOwnerIsAThread(states, actions, n);
    var s := states[n];
    assert s.mapMutex.Some? ==> CanGoOn(s, s.mapMutex.value);
    assert !CanGoOn(s, t);
    assert t in Waiting(s);
    forall v | v in Waiting(s)
      ensures exists u :: u in Waiting(s) && s.place[v].key in s.held[u]
    {
      assert PlaceInv(s, v) && !CanGoOn(s, v);
      var u := s.locked[s.place[v].mutex].0;
      assert s.place[v].key in s.held[u] && !CanGoOn(s, u);
    }
  }

  // ----- runs into such a deadlock ------------------------------------------------------------

  lemma RunGoesOn(states: seq<State>, actions: seq<Action>, a: Action) returns (more: seq<State>, done: seq<Action>)
    requires Run(states, actions) && Enabled(Last(states), a)
    ensures Run(more, done) && Last(more) == Apply(Last(states), a) && states <= more
  {
    more, done := states + [Apply(Last(states), a)], actions + [a];
  }

  /** The map mutex is free and the key's table entry is there: where the thread waits for the key. */
  ghost predicate AtKey(s: State, s': State, t: Thread, key: Key) {
    && key in s'.gitMutex && s'.place == s.place[t := LockAtKey(key, s'.gitMutex[key])]
    && s'.held == s.held && s'.mapMutex == None
  }

  lemma EntersMap(states: seq<State>, actions: seq<Action>, t: Thread, key: Key)
    returns (more: seq<State>, done: seq<Action>)
    requires Run(states, actions) && Inv(Last(states))
    requires t in Last(states).place && Last(states).place[t] == Outside && Last(states).mapMutex == None
    ensures Run(more, done) && states <= more
    ensures Last(more) == Last(states).(place := Last(states).place[t := LockInMap(key)], mapMutex := Some(t))
  {
    more, done := RunGoesOn(states, actions, CallLock(t, key));
    more, done := RunGoesOn(more, done, Advance(t));
    assert Last(states).place[t := LockAtMap(key)][t := LockInMap(key)] == Last(states).place[t := LockInMap(key)];
  }

  lemma LooksUp(states: seq<State>, actions: seq<Action>, t: Thread, key: Key)
    returns (more: seq<State>, done: seq<Action>)
    requires Run(states, actions) && Inv(Last(states))
    requires t in Last(states).place && Last(states).place[t] == LockInMap(key)
    ensures Run(more, done) && states <= more && key in Last(more).gitMutex && Last(more).held == Last(states).held
    ensures Last(more).place == Last(states).place[t := LockFound(key, Last(more).gitMutex[key])]
  {
    more, done := RunGoesOn(states, actions, Advance(t));
  }

  lemma LeavesMap(states: seq<State>, actions: seq<Action>, t: Thread, key: Key)
    returns (more: seq<State>, done: seq<Action>)
    requires Run(states, actions) && Inv(Last(states))
    requires t in Last(states).place && Last(states).place[t] == LockInMap(key)
    ensures Run(more, done) && states <= more && AtKey(Last(states), Last(more), t, key)
  {
    more, done := LooksUp(states, actions, t, key);
    RunInv(more, done, |done|);
    more, done := RunGoesOn(more, done, Advance(t));
  }

  /** From outside, a thread gets as far as waiting for a key once the map mutex is free. */
  lemma ApproachesKey(states: seq<State>, actions: seq<Action>, t: Thread, key: Key)
    returns (more: seq<State>, done: seq<Action>)
    requires Run(states, actions)
    requires t in Last(states).place && Last(states).place[t] == Outside && Last(states).mapMutex == None
    ensures Run(more, done) && states <= more && AtKey(Last(states), Last(more), t, key)
  {
    RunInv(states, actions, |actions|);
    more, done := EntersMap(states, actions, t, key);
    var s := Last(more);
    RunInv(more, done, |done|);
    more, done := LeavesMap(more, done, t, key);
    assert AtKey(s, Last(more), t, key);
  }

  /** A key that nobody holds is locked. */
  lemma TakesKey(states: seq<State>, actions: seq<Action>, t: Thread, key: Key)
    returns (more: seq<State>, done: seq<Action>)
    requires Run(states, actions)
    requires t in Last(states).place && Last(states).place[t] == Outside && Last(states).mapMutex == None
    requires forall u :: u in Last(states).held ==> key !in Last(states).held[u]
    ensures Run(more, done) && states <= more && Last(more).place == Last(states).place
    ensures Last(more).mapMutex == None && t in Last(states).held
    ensures Last(more).held == Last(states).held[t := Last(states).held[t] + {key}]
  {
    more, done := ApproachesKey(states, actions, t, key);
    RunInv(more, done, |done|);
    var s := Last(more);
    more, done := RunGoesOn(more, done, Advance(t));
    assert Last(more).place == Last(states).place;
  }

  lemma EntersUnlock(states: seq<State>, actions: seq<Action>, t: Thread, key: Key)
    returns (more: seq<State>, done: seq<Action>)
    requires Run(states, actions) && Inv(Last(states)) && t in Last(states).held && key in Last(states).held[t]
    requires t in Last(states).place && Last(states).place[t] == Outside && Last(states).mapMutex == None
    ensures Run(more, done) && states <= more
    ensures Last(more) == Last(states).(place := Last(states).place[t := UnlockInMap(key)], mapMutex := Some(t))
  {
    more, done := RunGoesOn(states, actions, CallUnlock(t, key));
    more, done := RunGoesOn(more, done, Advance(t));
    assert Last(states).place[t := UnlockAtMap(key)][t := UnlockInMap(key)]
           == Last(states).place[t := UnlockInMap(key)];
  }

  lemma FindsMutex(states: seq<State>, actions: seq<Action>, t: Thread, key: Key)
    returns (more: seq<State>, done: seq<Action>)
    requires Run(states, actions) && Inv(Last(states))
    requires t in Last(states).place && Last(states).place[t] == UnlockInMap(key)
    ensures Run(more, done) && states <= more && key in Last(states).gitMutex
    ensures var s := Last(states);
            Last(more) == s.(place := s.place[t := UnlockAtKey(key, s.gitMutex[key])], mapMutex := None)
  {
    var s := Last(states);
    assert PlaceInv(s, t);
    more, done := RunGoesOn(states, actions, Advance(t));
    RunInv(more, done, |done|);
    more, done := RunGoesOn(more, done, Advance(t));
    assert s.place[t := UnlockFound(key, s.gitMutex[key])][t := UnlockAtKey(key, s.gitMutex[key])]
           == s.place[t := UnlockAtKey(key, s.gitMutex[key])];
  }

  lemma Unlocks(states: seq<State>, actions: seq<Action>, t: Thread, key: Key, mutex: MutexId)
    returns (more: seq<State>, done: seq<Action>)
    requires Run(states, actions) && Inv(Last(states))
    requires t in Last(states).place && Last(states).place[t] == UnlockAtKey(key, mutex)
    ensures Run(more, done) && states <= more && t in Last(states).held
    ensures var s := Last(states);
            && Last(more).place == s.place[t := Outside] && Last(more).held == s.held[t := s.held[t] - {key}]
            && Last(more).mapMutex == s.mapMutex && Last(more).gitMutex == s.gitMutex
            && key in s.gitMutex && s.gitMutex[key] == mutex && mutex !in Last(more).locked
  {
    assert PlaceInv(Last(states), t);
    more, done := RunGoesOn(states, actions, Advance(t));
  }

  /** A call of Unlock that finds the map mutex free gives the key up, and no one holds its mutex any more. */
  lemma ReleasesKey(states: seq<State>, actions: seq<Action>, t: Thread, key: Key)
    returns (more: seq<State>, done: seq<Action>)
    requires Run(states, actions) && t in Last(states).held && key in Last(states).held[t]
    requires t in Last(states).place && Last(states).place[t] == Outside && Last(states).mapMutex == None
    ensures Run(more, done) && states <= more
    ensures Last(more).place == Last(states).place && Last(more).mapMutex == None
    ensures Last(more).held == Last(states).held[t := Last(states).held[t] - {key}]
    ensures key in Last(more).gitMutex && Last(more).gitMutex[key] !in Last(more).locked
  {
    more, done := ApproachesUnlock(states, actions, t, key);
    RunInv(more, done, |done|);
    more, done := Unlocks(more, done, t, key, Last(more).place[t].mutex);
    assert Last(more).place == Last(states).place;
  }

  lemma ApproachesUnlock(states: seq<State>, actions: seq<Action>, t: Thread, key: Key)
    returns (more: seq<State>, done: seq<Action>)
    requires Run(states, actions) && t in Last(states).held && key in Last(states).held[t]
    requires t in Last(states).place && Last(states).place[t] == Outside && Last(states).mapMutex == None
    ensures Run(more, done) && states <= more
    ensures Last(more).held == Last(states).held && Last(more).mapMutex == None
    ensures exists mutex :: Last(more).place == Last(states).place[t := UnlockAtKey(key, mutex)]
  {
    RunInv(states, actions, |actions|);
    more, done := EntersUnlock(states, actions, t, key);
    var s := Last(more);
    RunInv(more, done, |done|);
    more, done := FindsMutex(more, done, t, key);
    assert Last(more).place == Last(states).place[t := UnlockAtKey(key, s.gitMutex[key])];
  }

  lemma Start(ts: set<Thread>) returns (states: seq<State>)
    ensures Run(states, []) && Last(states).mapMutex == None
    ensures Last(states).place == map t | t in ts :: Outside
    ensures Last(states).held == map t | t in ts :: {}
  {
    states := [State(None, map[], 0, map[], map t | t in ts :: Outside, map t | t in ts :: {}, false)];
  }

  /** A thread that asks for the key it holds gets stuck. */
  lemma SameKeyTwice(t: Thread, key: Key) returns (states: seq<State>, actions: seq<Action>)
    ensures Run(states, actions) && Knot(Last(states), {t})
  {
    actions := [];
    states := Start({t});
    states, actions := TakesKey(states, actions, t, key);
    states, actions := ApproachesKey(states, actions, t, key);
    assert Last(states).place[t].key in Last(states).held[t];
  }

  /** Two threads that take two keys in opposite orders can both get stuck. */
  lemma OppositeOrders(t: Thread, u: Thread, k: Key, l: Key) returns (states: seq<State>, actions: seq<Action>)
    requires t != u && k != l
    ensures Run(states, actions) && Knot(Last(states), {t, u})
  {
    actions := [];
    states := Start({t, u});
    states, actions := TakesKey(states, actions, t, k);
    states, actions := TakesKey(states, actions, u, l);
    states, actions := ApproachesKey(states, actions, t, l);
    states, actions := ApproachesKey(states, actions, u, k);
    var s := Last(states);
    assert s.place[t].key in s.held[u] && s.place[u].key in s.held[t];
  }
}
