/** What holds of projects and their members over whole runs of requests. */
module Membership {
  import opened Prelude
  import opened Text
  import opened Projects

  // ----- one entry per user, at most one owner ------------------------------------------------

  ghost predicate UniqueUsers(members: seq<Member>) {
    forall i, j :: 0 <= i < j < |members| ==> members[i].userID != members[j].userID
  }

  ghost predicate WellFormed(members: seq<Member>) {
    && UniqueUsers(members)
    && (forall m, n :: m in members && n in members && m.role == Owner && n.role == Owner ==> m == n)
    && (forall m :: m in members ==> m.role == Owner || m.role == Editor || m.role == Viewer)
  }

  ghost predicate Inv(s: Store) {
    forall pid :: pid in s.projects ==> s.projects[pid].id == pid && WellFormed(s.projects[pid].members)
  }

  lemma EntryIsTheOnlyOne(members: seq<Member>, m: Member)
    requires UniqueUsers(members) && m in members
    ensures EntryOf(members, m.userID) == Some(m)
  {
    var k :| 0 <= k < |members| && members[k] == m;
    assert IndexOf(members, m.userID) <= k;
  }

  lemma EntryIsAMember(members: seq<Member>, uid: string)
    ensures EntryOf(members, uid).Some? ==> EntryOf(members, uid).value in members
    ensures EntryOf(members, uid).None? ==> forall m :: m in members ==> m.userID != uid
  {
  }

  lemma AddKeepsWellFormed(members: seq<Member>, m: Member)
    requires WellFormed(members) && EntryOf(members, m.userID).None?
    requires m.role == Editor || m.role == Viewer
    ensures WellFormed(members + [m])
    ensures forall uid :: EntryOf(members + [m], uid) == if uid == m.userID then Some(m) else EntryOf(members, uid)
  {
    EntryIsAMember(members, m.userID);
    forall uid
      ensures EntryOf(members + [m], uid) == if uid == m.userID then Some(m) else EntryOf(members, uid)
    {
      EntryIsAMember(members, uid);
      EntryIsAMember(members + [m], uid);
      var e := EntryOf(members, uid);
      if e.Some? {
        assert e.value in members + [m];
        EntryIsTheOnlyOne(members + [m], e.value);
      } else if uid == m.userID {
        EntryIsTheOnlyOne(members + [m], m);
      }
    }
  }

  lemma InviteKeepsWellFormed(members: seq<Member>, uid: string, invitation: Invitation, role: Option<Role>, now: nat)
    requires WellFormed(members)
    requires role.Some? ==> role.value == Editor || role.value == Viewer
    ensures WellFormed(Invited(members, uid, invitation, role, now))
  {
    var r := Invited(members, uid, invitation, role, now);
    assert forall i :: 0 <= i < |r| ==> members[i] in members && r[i].userID == members[i].userID
                                        && (r[i].role == Owner ==> members[i].role == Owner);
    forall i, j | 0 <= i < |r| && 0 <= j < |r| && r[i].role == Owner && r[j].role == Owner
      ensures i == j
    {
      assert members[i] == members[j];
    }
  }

  lemma EntryAfterInvite(members: seq<Member>, uid: string, invitation: Invitation, role: Option<Role>, now: nat,
                         u: string)
    requires UniqueUsers(members)
    ensures EntryOf(Invited(members, uid, invitation, role, now), u) ==
            var e := EntryOf(members, u);
            if u == uid && e.Some? then Some(WithInvite(e.value, invitation, role, now)) else e
  {
    var r := Invited(members, uid, invitation, role, now);
    var i := IndexOf(members, u);
    if i < |members| {
      assert r[i] in r && r[i].userID == u;
      EntryIsTheOnlyOne(r, r[i]);
    } else {
      EntryIsAMember(r, u);
    }
  }

  lemma {:induction false} WithoutKeepsOrder(members: seq<Member>, uid: string)
    requires UniqueUsers(members)
    ensures UniqueUsers(Without(members, uid))
  {
    if members != [] {
      var rest := Without(members[1..], uid);
      WithoutKeepsOrder(members[1..], uid);
      forall i | 0 <= i < |rest|
        ensures rest[i].userID != members[0].userID
      {
        assert rest[i] in members[1..];
      }
    }
  }

  lemma RemoveKeepsWellFormed(members: seq<Member>, uid: string)
    requires WellFormed(members)
    ensures var r := Without(members, uid);
            && WellFormed(r)
            && (forall u :: EntryOf(r, u) == if u == uid then None else EntryOf(members, u))
  {
    WithoutKeepsOrder(members, uid);
    var r := Without(members, uid);
    forall u
      ensures EntryOf(r, u) == if u == uid then None else EntryOf(members, u)
    {
      EntryIsAMember(r, u);
      EntryIsAMember(members, u);
      if EntryOf(members, u).Some? && u != uid {
        assert EntryOf(members, u).value in r;
        EntryIsTheOnlyOne(r, EntryOf(members, u).value);
      }
    }
  }

  lemma SendKeepsWellFormed(s: Store, r: Request)
    requires Inv(s) && Allowed(s, r) && r.Send?
    ensures WellFormed(Next(s, r).projects[r.pid].members)
  {
    var members := s.projects[r.pid].members;
    if Entry(s, r.pid, r.uid).None? {
      AddKeepsWellFormed(members, Member(r.uid, r.role.value, Pending, Decimal(r.now)));
    } else {
      InviteKeepsWellFormed(members, r.uid, Pending, r.role, r.now);
    }
  }

  lemma AnswerKeepsWellFormed(s: Store, r: Request)
    requires Inv(s) && Allowed(s, r) && (r.Accept? || r.Decline? || r.Leave?)
    ensures WellFormed(Next(s, r).projects[r.pid].members)
  {
    var members := s.projects[r.pid].members;
    match r
    case Accept(_, _, uid, now) => InviteKeepsWellFormed(members, uid, Accepted, None, now);
    case Decline(_, _, uid) => InviteKeepsWellFormed(members, uid, Declined, None, 0);
    case Leave(_, _, uid) => InviteKeepsWellFormed(members, uid, Exited, None, 0);
  }

  /** Whatever a request body says, one entry per user, one owner at most and the known roles are kept. */
  lemma StepInv(s: Store, r: Request)
    requires Inv(s)
    ensures Inv(Next(s, r))
  {
    if Allowed(s, r) {
      match r
      case Create(_, _, _, _) =>
      case Send(_, _, _, _, _) => SendKeepsWellFormed(s, r);
      case Remove(_, pid, uid) => RemoveKeepsWellFormed(s.projects[pid].members, uid);
      case SetState(_, _, _) =>
      case _ => AnswerKeepsWellFormed(s, r);
    }
  }

  /** Stores of a run that starts without projects. */
  ghost predicate Run(stores: seq<Store>, requests: seq<Request>) {
    && |stores| == |requests| + 1
    && stores[0].projects == map[]
    && forall i :: 0 <= i < |requests| ==> stores[i + 1] == Next(stores[i], requests[i])
  }

  lemma {:induction false} RunInv(stores: seq<Store>, requests: seq<Request>, n: nat)
    requires Run(stores, requests) && n < |stores|
    ensures Inv(stores[n])
  {
    if n > 0 {
      RunInv(stores, requests, n - 1);
      StepInv(stores[n - 1], requests[n - 1]);
    }
  }

  // ----- the access check and the stored role -------------------------------------------------

  lemma {:induction false} AcceptedRoleOfTheEntry(members: seq<Member>, uid: string)
    requires UniqueUsers(members)
    ensures AcceptedRole(members, uid) == var e := EntryOf(members, uid);
              if e.Some? && e.value.invitation == Accepted then Some(e.value.role) else None
  {
    if members != [] {
      AcceptedRoleOfTheEntry(members[1..], uid);
      EntryIsAMember(members[1..], uid);
    }
  }

  /** For an active user the access check agrees with the role that is reported. */
  lemma AccessCheckAgreesWithRole(stores: seq<Store>, requests: seq<Request>, n: nat, uid: string, pid: string,
                                  roles: set<Role>)
    requires Run(stores, requests) && n < |stores| && Active(stores[n], uid)
    ensures RbacValidator(stores[n], uid, pid, roles, Accepted) <==>
              var reported := GetProjectRole(stores[n], pid, uid);
              reported.Ok? && reported.value.Some? && reported.value.value in roles
  {
    RunInv(stores, requests, n);
    var s := stores[n];
    if pid in s.projects {
      var members := s.projects[pid].members;
      AcceptedRoleOfTheEntry(members, uid);
      EntryIsAMember(members, uid);
      forall m | m in members && m.userID == uid {
        EntryIsTheOnlyOne(members, m);
      }
    }
  }

  // ----- how invitations move -----------------------------------------------------------------

  /** Accept, decline and leave name the caller. */
  predicate NamesCaller(r: Request) {
    (r.Accept? || r.Decline? || r.Leave?) ==> r.uid == r.caller
  }

  function InvitationOf(s: Store, pid: string, uid: string): Option<Invitation> {
    var e := Entry(s, pid, uid);
    if e.Some? then Some(e.value.invitation) else None
  }

  predicate IsOwner(s: Store, pid: string, uid: string) {
    var e := Entry(s, pid, uid);
    e.Some? && e.value.role == Owner
  }

  /** Owners' own entries stay accepted. */
  ghost predicate OwnersAccepted(s: Store) {
    forall pid, uid :: IsOwner(s, pid, uid) ==> InvitationOf(s, pid, uid) == Some(Accepted)
  }

  lemma StepKeepsOwnersAccepted(s: Store, r: Request)
    requires Inv(s) && NamesCaller(r) && OwnersAccepted(s)
    ensures OwnersAccepted(Next(s, r))
  {
    forall pid, uid | IsOwner(Next(s, r), pid, uid)
      ensures InvitationOf(Next(s, r), pid, uid) == Some(Accepted)
    {
      EntryAfter(s, r, pid, uid);
      assert IsOwner(s, pid, uid) ==> InvitationOf(s, pid, uid) == Some(Accepted);
    }
  }

  /** In every run in which answers name the caller, owners' own entries stay accepted. */
  lemma {:induction false} OwnersStayAccepted(stores: seq<Store>, requests: seq<Request>, n: nat)
    requires HonestRun(stores, requests) && n < |stores|
    ensures OwnersAccepted(stores[n])
  {
    if n > 0 {
      OwnersStayAccepted(stores, requests, n - 1);
      RunInv(stores, requests, n - 1);
      StepKeepsOwnersAccepted(stores[n - 1], requests[n - 1]);
    }
  }

  /** The request that moves a user's entry in a project from one invitation to another. */
  ghost predicate Moves(s: Store, r: Request, pid: string, uid: string,
                        before: Option<Invitation>, after: Option<Invitation>)
  {
    || (r.Create? && r.pid == pid && r.caller == uid && before == None && after == Some(Accepted))
    || (r.Send? && r.pid == pid && r.uid == uid && IsOwner(s, pid, r.caller) && before != Some(Accepted)
        && after == Some(Pending))
    || (r.Accept? && r.pid == pid && r.caller == uid && before == Some(Pending) && after == Some(Accepted))
    || (r.Decline? && r.pid == pid && r.caller == uid && before == Some(Pending) && after == Some(Declined))
    || (r.Leave? && r.pid == pid && r.caller == uid && before == Some(Accepted) && after == Some(Exited))
    || (r.Remove? && r.pid == pid && r.uid == uid && IsOwner(s, pid, r.caller)
        && (before == Some(Accepted) || before == Some(Pending)) && after == None)
  }

  lemma CheckedEntry(s: Store, uid: string, pid: string, roles: set<Role>, invitation: Invitation)
    requires Inv(s) && RbacValidator(s, uid, pid, roles, invitation)
    ensures Entry(s, pid, uid).Some? && Entry(s, pid, uid).value.role in roles
    ensures InvitationOf(s, pid, uid) == Some(invitation)
  {
    var m :| m in s.projects[pid].members && m.userID == uid && m.role in roles && m.invitation == invitation;
    EntryIsTheOnlyOne(s.projects[pid].members, m);
  }

  /** An answer to an invitation, or leaving, changes the caller's own entry and nothing else. */
  lemma EntryAfterAnswer(s: Store, r: Request, pid: string, uid: string)
    requires Inv(s) && NamesCaller(r) && Allowed(s, r) && (r.Accept? || r.Decline? || r.Leave?)
    ensures var before, after := Entry(s, pid, uid), Entry(Next(s, r), pid, uid);
            if pid == r.pid && uid == r.caller then
              before.Some? && after.Some? && after.value.role == before.value.role && before.value.role != Owner
              && before.value.invitation == (if r.Leave? then Accepted else Pending)
              && after.value.invitation == (if r.Leave? then Exited else if r.Accept? then Accepted else Declined)
              && after.value.joinedAt == (if r.Accept? then Decimal(r.now) else before.value.joinedAt)
            else after == before
  {
    CheckedEntry(s, r.caller, r.pid, {Viewer, Editor}, if r.Leave? then Accepted else Pending);
    AnswerInvites(s, r, pid, uid);
  }

  lemma AnswerInvites(s: Store, r: Request, pid: string, uid: string)
    requires Inv(s) && NamesCaller(r) && Allowed(s, r) && (r.Accept? || r.Decline? || r.Leave?)
    ensures var before, after := Entry(s, pid, uid), Entry(Next(s, r), pid, uid);
            var answer := if r.Leave? then Exited else if r.Accept? then Accepted else Declined;
            after == if pid == r.pid && uid == r.caller && before.Some?
                     then Some(WithInvite(before.value, answer, None, if r.Accept? then r.now else 0)) else before
  {
    var members := s.projects[r.pid].members;
    match r
    case Accept(_, _, u, now) => EntryAfterInvite(members, u, Accepted, None, now, uid);
    case Decline(_, _, u) => EntryAfterInvite(members, u, Declined, None, 0, uid);
    case Leave(_, _, u) => EntryAfterInvite(members, u, Exited, None, 0, uid);
  }

  /** Sending an invitation leaves the invited user's entry pending, as an editor or viewer, and no other changed. */
  lemma EntryAfterSend(s: Store, r: Request, pid: string, uid: string)
    requires Inv(s) && Allowed(s, r) && r.Send?
    ensures IsOwner(s, r.pid, r.caller)
    ensures var before, after := Entry(s, pid, uid), Entry(Next(s, r), pid, uid);
            if pid == r.pid && uid == r.uid then
              after.Some? && after.value.invitation == Pending && after.value.role == r.role.value
              && after.value.role != Owner && InvitationOf(s, pid, uid) != Some(Accepted)
              && after.value.joinedAt == (if before.Some? then before.value.joinedAt else Decimal(r.now))
            else after == before
  {
    CheckedEntry(s, r.caller, r.pid, {Owner}, Accepted);
    var members := s.projects[r.pid].members;
    if Entry(s, r.pid, r.uid).None? {
      AddKeepsWellFormed(members, Member(r.uid, r.role.value, Pending, Decimal(r.now)));
    } else {
      EntryAfterInvite(members, r.uid, Pending, r.role, r.now, uid);
    }
  }

  lemma EntryAfterRemove(s: Store, r: Request, pid: string, uid: string)
    requires Inv(s) && Allowed(s, r) && r.Remove?
    ensures IsOwner(s, r.pid, r.caller)
    ensures Entry(Next(s, r), pid, uid) == if pid == r.pid && uid == r.uid then None else Entry(s, pid, uid)
  {
    CheckedEntry(s, r.caller, r.pid, {Owner}, Accepted);
    RemoveKeepsWellFormed(s.projects[r.pid].members, r.uid);
  }

  lemma EntryAfterCreate(s: Store, r: Request, pid: string, uid: string)
    requires Allowed(s, r) && r.Create?
    ensures Entry(Next(s, r), pid, uid) ==
            if pid == r.pid && uid == r.caller then Some(Member(uid, Owner, Accepted, Decimal(r.now)))
            else Entry(s, pid, uid)
  {
    if pid == r.pid {
      EntryIsAMember(Next(s, r).projects[pid].members, uid);
    }
  }

  lemma EntryAfterSetState(s: Store, r: Request, pid: string, uid: string)
    requires Allowed(s, r) && r.SetState?
    ensures Entry(Next(s, r), pid, uid) == Entry(s, pid, uid)
  {
  }

  /** What a request does to one entry. */
  lemma EntryAfter(s: Store, r: Request, pid: string, uid: string)
    requires Inv(s) && NamesCaller(r)
    ensures var before, after := Entry(s, pid, uid), Entry(Next(s, r), pid, uid);
            || after == before
            || (Allowed(s, r) && Moves(s, r, pid, uid, InvitationOf(s, pid, uid), InvitationOf(Next(s, r), pid, uid))
                && (after.Some? ==>
                      if r.Create? then after.value.role == Owner
                      else if r.Send? then after.value.role != Owner
                      else before.Some? && after.value.role == before.value.role && before.value.role != Owner))
  {
    if Allowed(s, r) {
      match r
      case Create(_, _, _, _) => EntryAfterCreate(s, r, pid, uid);
      case Send(_, _, _, _, _) => EntryAfterSend(s, r, pid, uid);
      case Remove(_, _, _) => EntryAfterRemove(s, r, pid, uid);
      case SetState(_, _, _) => EntryAfterSetState(s, r, pid, uid);
      case _ => EntryAfterAnswer(s, r, pid, uid);
    }
  }

  /** A run in which accept, decline and leave name the caller. */
  ghost predicate HonestRun(stores: seq<Store>, requests: seq<Request>) {
    Run(stores, requests) && forall i :: 0 <= i < |requests| ==> NamesCaller(requests[i])
  }

  /** An invitation moves only along the table of `Moves`, and by the request of the user the table names. */
  lemma InvitationsMoveByTheTable(stores: seq<Store>, requests: seq<Request>, n: nat, pid: string, uid: string)
    requires HonestRun(stores, requests) && n < |requests|
    ensures var before, after := InvitationOf(stores[n], pid, uid), InvitationOf(stores[n + 1], pid, uid);
            after != before ==> Moves(stores[n], requests[n], pid, uid, before, after)
  {
    RunInv(stores, requests, n);
    EntryAfter(stores[n], requests[n], pid, uid);
  }

  ghost predicate MemberAt(s: Store, pid: string, uid: string, invitation: Invitation) {
    InvitationOf(s, pid, uid) == Some(invitation) && !IsOwner(s, pid, uid)
  }

  /** Step i was an owner's carried-out invitation, and the user's entry has been pending ever since, up to step n. */
  ghost predicate InvitedAt(stores: seq<Store>, requests: seq<Request>, i: nat, n: nat, pid: string, uid: string)
    requires n < |stores| == |requests| + 1
  {
    && i < n && requests[i].Send? && requests[i].pid == pid && requests[i].uid == uid
    && Allowed(stores[i], requests[i]) && IsOwner(stores[i], pid, requests[i].caller)
    && forall k :: i < k <= n ==> MemberAt(stores[k], pid, uid, Pending)
  }

  lemma {:induction false} PendingWasInvited(stores: seq<Store>, requests: seq<Request>, n: nat,
                                             pid: string, uid: string)
    returns (i: nat)
    requires HonestRun(stores, requests) && n < |stores|
    requires MemberAt(stores[n], pid, uid, Pending)
    ensures InvitedAt(stores, requests, i, n, pid, uid)
  {
    assert n > 0;
    RunInv(stores, requests, n - 1);
    EntryAfter(stores[n - 1], requests[n - 1], pid, uid);
    if MemberAt(stores[n - 1], pid, uid, Pending) {
      i := PendingWasInvited(stores, requests, n - 1, pid, uid);
    } else {
      NotPendingBefore(stores, requests, n, pid, uid);
      i := n - 1;
    }
  }

  /** An entry that has just become a pending member's became so by an owner's invitation. */
  lemma BecomesPending(s: Store, r: Request, pid: string, uid: string)
    requires Inv(s) && NamesCaller(r)
    requires MemberAt(Next(s, r), pid, uid, Pending) && !MemberAt(s, pid, uid, Pending)
    ensures r.Send? && r.pid == pid && r.uid == uid && Allowed(s, r) && IsOwner(s, pid, r.caller)
  {
    EntryAfter(s, r, pid, uid);
  }

  lemma NotPendingBefore(stores: seq<Store>, requests: seq<Request>, n: nat, pid: string, uid: string)
    requires HonestRun(stores, requests) && 0 < n < |stores|
    requires MemberAt(stores[n], pid, uid, Pending) && !MemberAt(stores[n - 1], pid, uid, Pending)
    ensures InvitedAt(stores, requests, n - 1, n, pid, uid)
  {
    RunInv(stores, requests, n - 1);
    BecomesPending(stores[n - 1], requests[n - 1], pid, uid);
  }

  /**
   Every accepted member who is not an owner was invited by an owner at some step i, stayed pending until
   accepting in person at step j, and has been an accepted member ever since: there was no leaving and no
   removal in between.
   */
  lemma {:induction false} AcceptedWasInvitedAndAccepted(stores: seq<Store>, requests: seq<Request>, n: nat,
                                                         pid: string, uid: string) returns (i: nat, j: nat)
    requires HonestRun(stores, requests) && n < |stores|
    requires MemberAt(stores[n], pid, uid, Accepted)
    ensures i < j < n && InvitedAt(stores, requests, i, j, pid, uid)
    ensures requests[j].Accept? && requests[j].caller == uid && requests[j].pid == pid
            && Allowed(stores[j], requests[j])
    ensures forall k :: j < k <= n ==> MemberAt(stores[k], pid, uid, Accepted)
  {
    assert n > 0;
    RunInv(stores, requests, n - 1);
    EntryAfter(stores[n - 1], requests[n - 1], pid, uid);
    if MemberAt(stores[n - 1], pid, uid, Accepted) {
      i, j := AcceptedWasInvitedAndAccepted(stores, requests, n - 1, pid, uid);
    } else {
      j := n - 1;
      i := PendingWasInvited(stores, requests, j, pid, uid);
    }
  }

  /** Leaving and being removed do end an accepted membership. */
  lemma LeavingEndsMembership(s: Store, r: Request, pid: string, uid: string)
    requires Inv(s) && NamesCaller(r) && Allowed(s, r)
    requires (r.Leave? && r.pid == pid && r.caller == uid) || (r.Remove? && r.pid == pid && r.uid == uid)
    ensures InvitationOf(Next(s, r), pid, uid) == if r.Leave? then Some(Exited) else None
  {
    if r.Leave? {
      EntryAfterAnswer(s, r, pid, uid);
    } else {
      EntryAfterRemove(s, r, pid, uid);
    }
  }

  // ----- removed projects ---------------------------------------------------------------------

  /** A project with an owner is marked as removed exactly when the owner is deactivated. */
  ghost predicate RemovedAtInv(s: Store) {
    forall pid, m :: pid in s.projects && m in s.projects[pid].members && m.role == Owner ==>
      m.userID in s.users && (s.projects[pid].removedAt != "" <==> s.users[m.userID].deactivatedAt.Some?)
  }

  /** Members' owners after updating the entries of a project are owners before. */
  lemma OwnersStem(s: Store, r: Request, pid: string, m: Member)
    requires Inv(s) && Allowed(s, r) && !r.Create? && !r.SetState?
    requires pid in Next(s, r).projects && m in Next(s, r).projects[pid].members && m.role == Owner
    ensures pid in s.projects && exists o :: o in s.projects[pid].members && o.role == Owner && o.userID == m.userID
    ensures Next(s, r).projects[pid].removedAt == s.projects[pid].removedAt && Next(s, r).users == s.users
  {
    var before := s.projects[pid].members;
    if pid != r.pid {
      assert m in before;
    } else {
      match r
      case Accept(_, _, uid, now) => OwnerBeforeInvite(before, uid, Accepted, None, now, m);
      case Decline(_, _, uid) => OwnerBeforeInvite(before, uid, Declined, None, 0, m);
      case Leave(_, _, uid) => OwnerBeforeInvite(before, uid, Exited, None, 0, m);
      case Remove(_, _, _) => assert m in before;
      case Send(_, _, uid, role, now) =>
        if Entry(s, pid, uid).Some? {
          OwnerBeforeInvite(before, uid, Pending, role, now, m);
        } else {
          assert m in before;
        }
    }
  }

  lemma OwnerBeforeInvite(members: seq<Member>, uid: string, invitation: Invitation, role: Option<Role>, now: nat,
                          m: Member)
    requires role.Some? ==> role.value != Owner
    requires m in Invited(members, uid, invitation, role, now) && m.role == Owner
    ensures exists o :: o in members && o.role == Owner && o.userID == m.userID
  {
    var k :| 0 <= k < |members| && Invited(members, uid, invitation, role, now)[k] == m;
    assert members[k] in members && members[k].role == Owner && members[k].userID == m.userID;
  }

  lemma SetStateKeepsRemovedAt(s: Store, r: Request)
    requires Inv(s) && RemovedAtInv(s) && r.SetState? && Allowed(s, r)
    ensures RemovedAtInv(Next(s, r))
  {
    var s' := Next(s, r);
    forall pid, m | pid in s'.projects && m in s'.projects[pid].members && m.role == Owner
      ensures m.userID in s'.users && (s'.projects[pid].removedAt != "" <==> s'.users[m.userID].deactivatedAt.Some?)
    {
      var members := s.projects[pid].members;
      assert s'.projects[pid].members == members && WellFormed(members);
      if OwnedBy(s.projects[pid], r.uid) {
        var o :| o in members && o.userID == r.uid && o.role == Owner;
        assert o == m;
      } else {
        assert m.userID != r.uid;
      }
    }
  }

  /** Every request keeps the marks right, save for a project created by a deactivated user. */
  lemma StepRemovedAtExactly(s: Store, r: Request)
    requires Inv(s) && RemovedAtInv(s)
    ensures RemovedAtInv(Next(s, r)) <==> (r.Create? && Allowed(s, r) ==> Active(s, r.caller))
  {
    if Allowed(s, r) {
      var s' := Next(s, r);
      if r.SetState? {
        SetStateKeepsRemovedAt(s, r);
      } else if r.Create? {
        var owner := s'.projects[r.pid].members[0];
        assert owner in s'.projects[r.pid].members && owner.role == Owner;
      } else {
        forall pid, m | pid in s'.projects && m in s'.projects[pid].members && m.role == Owner
          ensures m.userID in s'.users && (s'.projects[pid].removedAt != "" <==> s'.users[m.userID].deactivatedAt.Some?)
        {
          OwnersStem(s, r, pid, m);
        }
      }
    }
  }

  /** Creators are active when they create a project. */
  ghost predicate ActiveCreators(stores: seq<Store>, requests: seq<Request>) {
    |stores| == |requests| + 1
    && forall i :: 0 <= i < |requests| && requests[i].Create? && Allowed(stores[i], requests[i]) ==>
         Active(stores[i], requests[i].caller)
  }

  /** After any mix of requests, with projects created by active users, the marks are right. */
  lemma {:induction false} RemovedExactlyWhenOwnerDeactivated(stores: seq<Store>, requests: seq<Request>, n: nat)
    requires Run(stores, requests) && ActiveCreators(stores, requests) && n < |stores|
    ensures RemovedAtInv(stores[n])
  {
    if n > 0 {
      RemovedExactlyWhenOwnerDeactivated(stores, requests, n - 1);
      RunInv(stores, requests, n - 1);
      StepRemovedAtExactly(stores[n - 1], requests[n - 1]);
    }
  }

  /** Deactivating a user hides exactly the projects the user owns, from everybody. */
  lemma DeactivationHidesOwnedProjects(s: Store, uid: string, now: nat, v: string, pid: string)
    requires Allowed(s, SetState(uid, true, now))
    ensures pid in GetProjectsByUserID(Next(s, SetState(uid, true, now)), v) <==>
              pid in GetProjectsByUserID(s, v) && !OwnedBy(s.projects[pid], uid)
  {
    var off := Next(s, SetState(uid, true, now));
    assert Decimal(now) != "";
    if pid in s.projects {
      if OwnedBy(s.projects[pid], uid) {
        assert off.projects[pid].removedAt == Decimal(now);
      } else {
        assert off.projects[pid] == s.projects[pid];
      }
    }
  }

  /** Projects of active owners are not marked as removed. */
  ghost predicate ActiveOwnersUnmarked(s: Store) {
    forall pid, m :: pid in s.projects && m in s.projects[pid].members && m.role == Owner && Active(s, m.userID) ==>
      s.projects[pid].removedAt == ""
  }

  lemma SetStateKeepsUnmarked(s: Store, r: Request)
    requires Inv(s) && ActiveOwnersUnmarked(s) && r.SetState? && Allowed(s, r)
    ensures ActiveOwnersUnmarked(Next(s, r))
  {
    var s' := Next(s, r);
    forall pid, m | pid in s'.projects && m in s'.projects[pid].members && m.role == Owner && Active(s', m.userID)
      ensures s'.projects[pid].removedAt == ""
    {
      var members := s.projects[pid].members;
      assert s'.projects[pid].members == members && WellFormed(members);
      if OwnedBy(s.projects[pid], r.uid) {
        var o :| o in members && o.userID == r.uid && o.role == Owner;
        assert o == m;
      }
    }
  }

  /** Every request, whoever makes it, keeps the projects of active owners unmarked. */
  lemma StepKeepsUnmarked(s: Store, r: Request)
    requires Inv(s) && ActiveOwnersUnmarked(s)
    ensures ActiveOwnersUnmarked(Next(s, r))
  {
    if Allowed(s, r) {
      var s' := Next(s, r);
      if r.SetState? {
        SetStateKeepsUnmarked(s, r);
      } else if !r.Create? {
        forall pid, m | pid in s'.projects && m in s'.projects[pid].members && m.role == Owner && Active(s', m.userID)
          ensures s'.projects[pid].removedAt == ""
        {
          OwnersStem(s, r, pid, m);
        }
      }
    }
  }

  lemma {:induction false} RunKeepsUnmarked(stores: seq<Store>, requests: seq<Request>, n: nat)
    requires Run(stores, requests) && n < |stores|
    ensures ActiveOwnersUnmarked(stores[n])
  {
    if n > 0 {
      RunKeepsUnmarked(stores, requests, n - 1);
      RunInv(stores, requests, n - 1);
      StepKeepsUnmarked(stores[n - 1], requests[n - 1]);
    }
  }

  /**
   In every reachable state, deactivating an active user who is no administrator and activating the user again
   restores the store, and with it what every user sees.
   */
  lemma DeactivateThenActivate(stores: seq<Store>, requests: seq<Request>, n: nat, uid: string, now: nat, later: nat)
    requires Run(stores, requests) && n < |stores|
    requires uid in stores[n].users && !stores[n].users[uid].isAdmin && Active(stores[n], uid)
    ensures var s := stores[n];
            Next(Next(s, SetState(uid, true, now)), SetState(uid, false, later)) == s
  {
    RunInv(stores, requests, n);
    RunKeepsUnmarked(stores, requests, n);
    OffAndOn(stores[n], uid, now, later);
  }

  lemma OffAndOn(s: Store, uid: string, now: nat, later: nat)
    requires Inv(s) && ActiveOwnersUnmarked(s)
    requires uid in s.users && !s.users[uid].isAdmin && Active(s, uid)
    ensures Next(Next(s, SetState(uid, true, now)), SetState(uid, false, later)) == s
  {
    var off := Next(s, SetState(uid, true, now));
    var on := Next(off, SetState(uid, false, later));
    forall pid | pid in s.projects
      ensures on.projects[pid] == s.projects[pid]
    {
      if OwnedBy(s.projects[pid], uid) {
        var o :| o in s.projects[pid].members && o.userID == uid && o.role == Owner;
        assert s.projects[pid].removedAt == "";
        assert OwnedBy(off.projects[pid], uid);
      } else {
        assert off.projects[pid] == s.projects[pid];
      }
    }
    assert on.projects == s.projects;
    assert s.users[uid].(deactivatedAt := None) == s.users[uid];
    assert on.users == s.users;
  }

  /** A deactivated user's new project is not marked as removed. */
  lemma DeactivatedCreator()
    ensures var s := Store(map["eve" := User("eve", false, Some("1700000000"))], map[]);
            Inv(s) && RemovedAtInv(s) && !RemovedAtInv(Next(s, Create("eve", "p1", "demo", 1700000001)))
  {
    var s := Store(map["eve" := User("eve", false, Some("1700000000"))], map[]);
    var r := Create("eve", "p1", "demo", 1700000001);
    assert Allowed(s, r) && !Active(s, "eve");
    StepRemovedAtExactly(s, r);
  }

  // ----- which requests are carried out -------------------------------------------------------

  /** The user is active and has an entry in the project with the role and the invitation. */
  ghost predicate ActiveMember(s: Store, pid: string, uid: string, role: Role, invitation: Invitation) {
    && uid in s.users && s.users[uid].deactivatedAt == None
    && Entry(s, pid, uid).Some?
    && Entry(s, pid, uid).value.role == role && Entry(s, pid, uid).value.invitation == invitation
  }

  lemma CheckExactly(s: Store, uid: string, pid: string, roles: set<Role>, invitation: Invitation)
    requires Inv(s)
    ensures RbacValidator(s, uid, pid, roles, invitation)
            <==> exists role :: role in roles && ActiveMember(s, pid, uid, role, invitation)
  {
    if RbacValidator(s, uid, pid, roles, invitation) {
      CheckedEntry(s, uid, pid, roles, invitation);
      assert ActiveMember(s, pid, uid, Entry(s, pid, uid).value.role, invitation);
    }
    if role :| role in roles && ActiveMember(s, pid, uid, role, invitation) {
      EntryIsAMember(s.projects[pid].members, uid);
    }
  }

  /** In every reachable state an invited editor or viewer can accept and decline, and a joined one can leave, only. */
  lemma AnswersAllowedExactly(stores: seq<Store>, requests: seq<Request>, n: nat, caller: string, pid: string,
                              uid: string, now: nat)
    requires Run(stores, requests) && n < |stores|
    ensures var s := stores[n];
            var invited := ActiveMember(s, pid, caller, Editor, Pending)
                           || ActiveMember(s, pid, caller, Viewer, Pending);
            var joined := ActiveMember(s, pid, caller, Editor, Accepted)
                          || ActiveMember(s, pid, caller, Viewer, Accepted);
            && (Allowed(s, Accept(caller, pid, uid, now)) <==> invited)
            && (Allowed(s, Decline(caller, pid, uid)) <==> invited)
            && (Allowed(s, Leave(caller, pid, uid)) <==> joined)
  {
    RunInv(stores, requests, n);
    CheckExactly(stores[n], caller, pid, {Viewer, Editor}, Pending);
    CheckExactly(stores[n], caller, pid, {Viewer, Editor}, Accepted);
  }

  /** An active owner can invite whoever is not a member yet, and remove whoever is or is invited; nobody else can. */
  lemma OwnerRequestsAllowedExactly(stores: seq<Store>, requests: seq<Request>, n: nat, caller: string, pid: string,
                                    uid: string, role: Option<Role>, now: nat)
    requires Run(stores, requests) && n < |stores|
    ensures var s := stores[n];
            var owner := ActiveMember(s, pid, caller, Owner, Accepted);
            && (Allowed(s, Send(caller, pid, uid, role, now)) <==>
                  owner && (role == Some(Editor) || role == Some(Viewer)) && uid in s.users
                  && InvitationOf(s, pid, uid) != Some(Accepted))
            && (Allowed(s, Remove(caller, pid, uid)) <==>
                  owner && uid != ""
                  && (InvitationOf(s, pid, uid) == Some(Accepted) || InvitationOf(s, pid, uid) == Some(Pending)))
  {
    RunInv(stores, requests, n);
    CheckExactly(stores[n], caller, pid, {Owner}, Accepted);
  }

  /** No two projects have one name, and administrators stay active. */
  ghost predicate NamesAndAdmins(s: Store) {
    && (forall p, q :: p in s.projects && q in s.projects && s.projects[p].name == s.projects[q].name ==> p == q)
    && (forall uid :: uid in s.users && s.users[uid].isAdmin ==> s.users[uid].deactivatedAt == None)
  }

  lemma {:induction false} NamesStayUnique(stores: seq<Store>, requests: seq<Request>, n: nat)
    requires Run(stores, requests) && n < |stores|
    requires forall uid :: uid in stores[0].users && stores[0].users[uid].isAdmin ==>
               stores[0].users[uid].deactivatedAt == None
    ensures NamesAndAdmins(stores[n])
  {
    if n > 0 {
      NamesStayUnique(stores, requests, n - 1);
      RequestFrame(stores[n - 1], requests[n - 1]);
    }
  }

  /** What a request leaves alone: users, names, marks and other projects, as far as it is not about them. */
  lemma RequestFrame(s: Store, r: Request)
    ensures var s' := Next(s, r);
            && (forall pid :: pid in s.projects ==>
                  && pid in s'.projects && s'.projects[pid].name == s.projects[pid].name
                  && (r.SetState? || s'.projects[pid].removedAt == s.projects[pid].removedAt)
                  && (r.SetState? || r.pid != pid ==> s'.projects[pid].members == s.projects[pid].members))
            && (forall pid :: pid in s'.projects && pid !in s.projects ==>
                  && r.Create? && r.pid == pid && s'.projects[pid].name == r.name != ""
                  && s'.projects[pid].removedAt == ""
                  && forall p :: p in s.projects ==> s.projects[p].name != r.name)
            && s'.users.Keys == s.users.Keys
            && (forall uid :: uid in s.users ==>
                  if s'.users[uid].deactivatedAt == s.users[uid].deactivatedAt then s'.users[uid] == s.users[uid]
                  else r.SetState? && r.uid == uid && !s.users[uid].isAdmin
                       && var since := if r.deactivate then Some(Decimal(r.now)) else None;
                          s'.users[uid] == s.users[uid].(deactivatedAt := since))
  {
  }

  /** A new name and an existing user are all it takes to create a project, and only administrators stay as they are. */
  lemma CreateAndSetStateExactly(s: Store, caller: string, pid: string, name: string, uid: string, now: nat)
    requires pid !in s.projects
    ensures (pid in Next(s, Create(caller, pid, name, now)).projects) <==>
              caller in s.users && name != "" && forall p :: p in s.projects ==> s.projects[p].name != name
    ensures Allowed(s, SetState(uid, true, now)) <==>
              uid in s.users && !s.users[uid].isAdmin && s.users[uid].deactivatedAt == None
    ensures Allowed(s, SetState(uid, false, now)) <==> uid in s.users && !s.users[uid].isAdmin
    ensures Allowed(s, SetState(uid, false, now)) ==>
              Next(s, SetState(uid, false, now)).users[uid].deactivatedAt == None
  {
  }

  // ----- the list of projects -----------------------------------------------------------------

  /** In every reachable state, the projects a user sees are those not removed that the user is in or invited to. */
  lemma SeesExactly(stores: seq<Store>, requests: seq<Request>, n: nat, uid: string, pid: string)
    requires Run(stores, requests) && n < |stores|
    ensures var s := stores[n];
            pid in GetProjectsByUserID(s, uid) <==>
              pid in s.projects && s.projects[pid].removedAt == ""
              && (InvitationOf(s, pid, uid) == Some(Pending) || InvitationOf(s, pid, uid) == Some(Accepted))
  {
    RunInv(stores, requests, n);
    if pid in stores[n].projects {
      var members := stores[n].projects[pid].members;
      EntryIsAMember(members, uid);
      forall m | m in members && m.userID == uid {
        EntryIsTheOnlyOne(members, m);
      }
    }
  }

  /**
   Creating a project, being invited and accepting put it on the list or keep it there, if it is not removed;
   declining, leaving and being removed take it off; no other request about members changes the list.
   */
  lemma ListAfterRequest(stores: seq<Store>, requests: seq<Request>, n: nat, uid: string, pid: string)
    requires HonestRun(stores, requests) && n < |requests| && Allowed(stores[n], requests[n])
    requires !requests[n].SetState?
    ensures var s, s', r := stores[n], stores[n + 1], requests[n];
            var listed := pid in GetProjectsByUserID(s', uid);
            if r.pid == pid && r.Create? then listed <==> r.caller == uid
            else if r.pid == pid && r.Send? && r.uid == uid then listed <==> s.projects[pid].removedAt == ""
            else if r.pid == pid && r.Accept? && r.caller == uid then listed <==> s.projects[pid].removedAt == ""
            else if r.pid == pid && (r.Decline? || r.Leave? || r.Remove?) && r.uid == uid then !listed
            else listed <==> pid in GetProjectsByUserID(s, uid)
  {
    SeesExactly(stores, requests, n, uid, pid);
    SeesExactly(stores, requests, n + 1, uid, pid);
    RunInv(stores, requests, n);
    RequestFrame(stores[n], requests[n]);
    if requests[n].Create? {
      EntryAfterCreate(stores[n], requests[n], pid, uid);
    } else if requests[n].Send? {
      EntryAfterSend(stores[n], requests[n], pid, uid);
    } else if requests[n].Remove? {
      EntryAfterRemove(stores[n], requests[n], pid, uid);
    } else {
      EntryAfterAnswer(stores[n], requests[n], pid, uid);
    }
  }
}
