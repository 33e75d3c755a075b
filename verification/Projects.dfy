/**
 Projects, their members and who may do what. The first part describes the stored records and what each
 handler does to them as functions of the whole store; `ProjectStore` is the program, which checks the
 stored state and then updates it; `Membership` has what follows for whole runs.
 */
module Projects {
  import opened Prelude
  import opened Text

  datatype Role = Owner | Editor | Viewer | Unknown(name: string)

  datatype Invitation = Pending | Accepted | Declined | Exited

  datatype Member = Member(userID: string, role: Role, invitation: Invitation, joinedAt: string)

  datatype Project = Project(id: string, name: string, members: seq<Member>, removedAt: string)

  datatype User = User(userName: string, isAdmin: bool, deactivatedAt: Option<string>)

  datatype Store = Store(users: map<string, User>, projects: map<string, Project>)

  // ----- queries ------------------------------------------------------------------------------

  /** Index of the first entry of a user, or the number of entries. */
  function IndexOf(members: seq<Member>, uid: string): (i: nat)
    ensures i <= |members|
    ensures i < |members| ==> members[i].userID == uid
    ensures forall j :: 0 <= j < i ==> members[j].userID != uid
  {
    if members == [] || members[0].userID == uid then 0 else 1 + IndexOf(members[1..], uid)
  }

  function EntryOf(members: seq<Member>, uid: string): Option<Member> {
    var i := IndexOf(members, uid);
    if i < |members| then Some(members[i]) else None
  }

  function Entry(s: Store, pid: string, uid: string): Option<Member> {
    if pid in s.projects then EntryOf(s.projects[pid].members, uid) else None
  }

  predicate Active(s: Store, uid: string) {
    uid in s.users && s.users[uid].deactivatedAt.None?
  }

  /** The access check: an active user with some entry in the project that has one of the roles and the invitation. */
  predicate RbacValidator(s: Store, uid: string, pid: string, roles: set<Role>, invitation: Invitation) {
    Active(s, uid) && pid in s.projects
    && exists m :: m in s.projects[pid].members && m.userID == uid && m.role in roles && m.invitation == invitation
  }

  /** The role in the first accepted entry of a user; the lookup fails when there is no such project. */
  function GetProjectRole(s: Store, pid: string, uid: string): Result<Option<Role>, ()> {
    if pid in s.projects then Ok(AcceptedRole(s.projects[pid].members, uid)) else Err(())
  }

  function AcceptedRole(members: seq<Member>, uid: string): Option<Role> {
    if members == [] then None
    else if members[0].userID == uid && members[0].invitation == Accepted then Some(members[0].role)
    else AcceptedRole(members[1..], uid)
  }

  predicate Participates(p: Project, uid: string) {
    exists m :: m in p.members && m.userID == uid && m.invitation != Declined && m.invitation != Exited
  }

  /** The projects a user sees. */
  function GetProjectsByUserID(s: Store, uid: string): set<string> {
    set pid | pid in s.projects && s.projects[pid].removedAt == "" && Participates(s.projects[pid], uid)
  }

  predicate OwnedBy(p: Project, uid: string) {
    exists m :: m in p.members && m.userID == uid && m.role == Owner
  }

  // ----- updates ------------------------------------------------------------------------------

  function WithInvite(m: Member, invitation: Invitation, role: Option<Role>, now: nat): Member {
    match invitation
    case Pending => if role.Some? then m.(invitation := Pending, role := role.value) else m.(invitation := Pending)
    case Accepted => m.(invitation := Accepted, joinedAt := Decimal(now))
    case _ => m.(invitation := invitation)
  }

  /** Updates every entry of a user. */
  function Invited(members: seq<Member>, uid: string, invitation: Invitation, role: Option<Role>, now: nat)
    : (r: seq<Member>)
    ensures |r| == |members|
  {
    seq(|members|, i requires 0 <= i < |members| =>
      if members[i].userID == uid then WithInvite(members[i], invitation, role, now) else members[i])
  }

  /** Drops every entry of a user. */
  function Without(members: seq<Member>, uid: string): (r: seq<Member>)
    ensures forall m :: m in r <==> m in members && m.userID != uid
  {
    if members == [] then []
    else if members[0].userID == uid then Without(members[1..], uid)
    else [members[0]] + Without(members[1..], uid)
  }

  /** Marks the projects a user owns as removed at a time, or with "" as not removed. */
  function OwnedMarked(projects: map<string, Project>, uid: string, time: string): map<string, Project> {
    map pid | pid in projects ::
      if OwnedBy(projects[pid], uid) then projects[pid].(removedAt := time) else projects[pid]
  }

  function WithMembers(s: Store, pid: string, members: seq<Member>): Store
    requires pid in s.projects
  {
    s.(projects := s.projects[pid := s.projects[pid].(members := members)])
  }

  // ----- requests -----------------------------------------------------------------------------

  /** A request: who makes it and what the request body says. */
  datatype Request =
    | Create(caller: string, pid: string, name: string, now: nat)
    | Send(caller: string, pid: string, uid: string, role: Option<Role>, now: nat)
    | Accept(caller: string, pid: string, uid: string, now: nat)
    | Decline(caller: string, pid: string, uid: string)
    | Leave(caller: string, pid: string, uid: string)
    | Remove(caller: string, pid: string, uid: string)
    | SetState(uid: string, deactivate: bool, now: nat)

  /** Whether the request is carried out. */
  predicate Allowed(s: Store, r: Request) {
    match r
    case Create(caller, pid, name, _) =>
      name != "" && caller in s.users && pid !in s.projects
      && forall p :: p in s.projects ==> s.projects[p].name != name
    case Send(caller, pid, uid, role, _) =>
      RbacValidator(s, caller, pid, {Owner}, Accepted) && (role == Some(Editor) || role == Some(Viewer))
      && uid in s.users && (Entry(s, pid, uid).Some? ==> Entry(s, pid, uid).value.invitation != Accepted)
    case Accept(caller, pid, _, _) => RbacValidator(s, caller, pid, {Viewer, Editor}, Pending)
    case Decline(caller, pid, _) => RbacValidator(s, caller, pid, {Viewer, Editor}, Pending)
    case Leave(caller, pid, _) => RbacValidator(s, caller, pid, {Viewer, Editor}, Accepted)
    case Remove(caller, pid, uid) =>
      uid != "" && RbacValidator(s, caller, pid, {Owner}, Accepted) && Entry(s, pid, uid).Some?
      && (Entry(s, pid, uid).value.invitation == Accepted || Entry(s, pid, uid).value.invitation == Pending)
    case SetState(uid, deactivate, _) =>
      uid in s.users && !s.users[uid].isAdmin && (deactivate ==> s.users[uid].deactivatedAt.None?)
  }

  /** The store after a request. */
  function Next(s: Store, r: Request): Store {
    if !Allowed(s, r) then s else
      match r
      case Create(caller, pid, name, now) =>
        s.(projects := s.projects[pid := Project(pid, name, [Member(caller, Owner, Accepted, Decimal(now))], "")])
      case Send(_, pid, uid, role, now) =>
        var members := s.projects[pid].members;
        WithMembers(s, pid, if Entry(s, pid, uid).None? then members + [Member(uid, role.value, Pending, Decimal(now))]
                            else Invited(members, uid, Pending, role, now))
      case Accept(_, pid, uid, now) => WithMembers(s, pid, Invited(s.projects[pid].members, uid, Accepted, None, now))
      case Decline(_, pid, uid) => WithMembers(s, pid, Invited(s.projects[pid].members, uid, Declined, None, 0))
      case Leave(_, pid, uid) => WithMembers(s, pid, Invited(s.projects[pid].members, uid, Exited, None, 0))
      case Remove(_, pid, uid) => WithMembers(s, pid, Without(s.projects[pid].members, uid))
      case SetState(uid, deactivate, now) =>
        var time := if deactivate then Decimal(now) else "";
        Store(s.users[uid := s.users[uid].(deactivatedAt := if deactivate then Some(time) else None)],
              OwnedMarked(s.projects, uid, time))
  }

  // ----- the program --------------------------------------------------------------------------

  datatype Answer = Done | Unauthorized | InvalidRequest | InvalidRole | NotFound | AlreadyMember | NotAMember
                  | NameTaken | Rejected

  class ProjectStore {
    var users: map<string, User>
    var projects: map<string, Project>

    function Contents(): Store
      reads this
    {
      Store(users, projects)
    }

    constructor (users: map<string, User>)
      ensures Contents() == Store(users, map[])
    {
      this.users, projects := users, map[];
    }

    /** Searches the project's entries for the user's invitation. */
    method GetInvitation(pid: string, uid: string) returns (found: Result<Option<Invitation>, ()>)
      ensures found.Err? <==> pid !in projects
      ensures found.Ok? ==>
                found.value == var e := Entry(Contents(), pid, uid); if e.Some? then Some(e.value.invitation) else None
    {
      if pid !in projects {
        return Err(());
      }
      var members := projects[pid].members;
      var i := 0;
      while i < |members|
        invariant 0 <= i <= |members|
        invariant i <= IndexOf(members, uid)
      {
        if members[i].userID == uid {
          return Ok(Some(members[i].invitation));
        }
        i := i + 1;
      }
      return Ok(None);
    }

    method AddMember(pid: string, member: Member) returns (ok: bool)
      modifies this`projects
      ensures ok <==> pid in old(projects)
      ensures Contents() == if ok then WithMembers(old(Contents()), pid, old(projects)[pid].members + [member])
                            else old(Contents())
    {
      if pid !in projects {
        return false;
      }
      var p := projects[pid];
      projects := projects[pid := p.(members := p.members + [member])];
      return true;
    }

    method RemoveMember(pid: string, uid: string) returns (ok: bool)
      modifies this`projects
      ensures ok <==> pid in old(projects)
      ensures Contents() == if ok then WithMembers(old(Contents()), pid, Without(old(projects)[pid].members, uid))
                            else old(Contents())
    {
      if pid !in projects {
        return false;
      }
      var p := projects[pid];
      projects := projects[pid := p.(members := Without(p.members, uid))];
      return true;
    }

    method UpdateInvite(pid: string, uid: string, invitation: Invitation, role: Option<Role>, now: nat)
      returns (ok: bool)
      modifies this`projects
      ensures ok <==> pid in old(projects)
      ensures Contents() == if ok then
                WithMembers(old(Contents()), pid, Invited(old(projects)[pid].members, uid, invitation, role, now))
              else old(Contents())
    {
      if pid !in projects {
        return false;
      }
      var p := projects[pid];
      projects := projects[pid := p.(members := Invited(p.members, uid, invitation, role, now))];
      return true;
    }

    method CreateProject(caller: string, pid: string, name: string, now: nat) returns (answer: Answer)
      modifies this`projects
      ensures Contents() == Next(old(Contents()), Create(caller, pid, name, now))
      ensures answer == Done <==> old(Allowed(Contents(), Create(caller, pid, name, now)))
      ensures answer == if name == "" then InvalidRequest else if caller !in old(users) then Rejected
                        else if exists p :: p in old(projects) && old(projects)[p].name == name then NameTaken
                        else if pid in old(projects) then Rejected else Done
    {
      if name == "" {
        return InvalidRequest;
      }
      if caller !in users {
        return Rejected;
      }
      if exists p :: p in projects && projects[p].name == name {
        return NameTaken;
      }
      if pid in projects {
        return Rejected;
      }
      projects := projects[pid := Project(pid, name, [Member(caller, Owner, Accepted, Decimal(now))], "")];
      return Done;
    }

    method SendInvitation(caller: string, pid: string, uid: string, role: Option<Role>, now: nat)
      returns (answer: Answer)
      modifies this`projects
      ensures Contents() == Next(old(Contents()), Send(caller, pid, uid, role, now))
      ensures answer == Done <==> old(Allowed(Contents(), Send(caller, pid, uid, role, now)))
      ensures answer == if !old(RbacValidator(Contents(), caller, pid, {Owner}, Accepted)) then Unauthorized
                        else if role != Some(Editor) && role != Some(Viewer) then InvalidRole
                        else if uid !in old(users) then NotFound
                        else var e := old(Entry(Contents(), pid, uid));
                             if e.Some? && e.value.invitation == Accepted then AlreadyMember else Done
    {
      if !RbacValidator(Contents(), caller, pid, {Owner}, Accepted) {
        return Unauthorized;
      }
      if role.None? || (role.value != Editor && role.value != Viewer) {
        return InvalidRole;
      }
      if uid !in users {
        return NotFound;
      }
      var invitation := GetInvitation(pid, uid);
      if invitation.value == Some(Accepted) {
        return AlreadyMember;
      } else if invitation.value.Some? {
        var ok := UpdateInvite(pid, uid, Pending, role, now);
        return Done;
      }
      var ok := AddMember(pid, Member(uid, role.value, Pending, Decimal(now)));
      return Done;
    }

    method AcceptInvitation(caller: string, pid: string, uid: string, now: nat) returns (answer: Answer)
      modifies this`projects
      ensures Contents() == Next(old(Contents()), Accept(caller, pid, uid, now))
      ensures answer == Done <==> old(Allowed(Contents(), Accept(caller, pid, uid, now)))
      ensures answer == if old(RbacValidator(Contents(), caller, pid, {Viewer, Editor}, Pending)) then Done
                        else Unauthorized
    {
      if !RbacValidator(Contents(), caller, pid, {Viewer, Editor}, Pending) {
        return Unauthorized;
      }
      var ok := UpdateInvite(pid, uid, Accepted, None, now);
      return Done;
    }

    method DeclineInvitation(caller: string, pid: string, uid: string) returns (answer: Answer)
      modifies this`projects
      ensures Contents() == Next(old(Contents()), Decline(caller, pid, uid))
      ensures answer == Done <==> old(Allowed(Contents(), Decline(caller, pid, uid)))
      ensures answer == if old(RbacValidator(Contents(), caller, pid, {Viewer, Editor}, Pending)) then Done
                        else Unauthorized
    {
      if !RbacValidator(Contents(), caller, pid, {Viewer, Editor}, Pending) {
        return Unauthorized;
      }
      var ok := UpdateInvite(pid, uid, Declined, None, 0);
      return Done;
    }

    method LeaveProject(caller: string, pid: string, uid: string) returns (answer: Answer)
      modifies this`projects
      ensures Contents() == Next(old(Contents()), Leave(caller, pid, uid))
      ensures answer == Done <==> old(Allowed(Contents(), Leave(caller, pid, uid)))
      ensures answer == if old(RbacValidator(Contents(), caller, pid, {Viewer, Editor}, Accepted)) then Done
                        else Unauthorized
    {
      if !RbacValidator(Contents(), caller, pid, {Viewer, Editor}, Accepted) {
        return Unauthorized;
      }
      var ok := UpdateInvite(pid, uid, Exited, None, 0);
      return Done;
    }

    method RemoveInvitation(caller: string, pid: string, uid: string) returns (answer: Answer)
      modifies this`projects
      ensures Contents() == Next(old(Contents()), Remove(caller, pid, uid))
      ensures var s, e := old(Contents()), Entry(old(Contents()), pid, uid);
              var gone := e.Some? && (e.value.invitation == Declined || e.value.invitation == Exited);
              answer == if uid == "" then InvalidRequest
                        else if !RbacValidator(s, caller, pid, {Owner}, Accepted) then Unauthorized
                        else if gone then NotAMember else Done
      ensures answer == Done ==> Entry(Contents(), pid, uid).None?
    {
      if uid == "" {
        return InvalidRequest;
      }
      if !RbacValidator(Contents(), caller, pid, {Owner}, Accepted) {
        return Unauthorized;
      }
      var invitation := GetInvitation(pid, uid);
      if invitation.value == Some(Accepted) || invitation.value == Some(Pending) {
        var ok := RemoveMember(pid, uid);
      } else if invitation.value.Some? {
        return NotAMember;
      }
      return Done;
    }

    /** Activates or deactivates a user and, with it, the projects the user owns. */
    method UpdateStateTransaction(uid: string, deactivate: bool, now: nat) returns (answer: Answer)
      modifies this
      ensures Contents() == Next(old(Contents()), SetState(uid, deactivate, now))
      ensures answer == Done <==> old(Allowed(Contents(), SetState(uid, deactivate, now)))
      ensures answer == if uid !in old(users) then NotFound
                        else if old(users)[uid].isAdmin then Rejected
                        else if deactivate && old(users)[uid].deactivatedAt.Some? then Rejected
                        else Done
    {
      if uid !in users {
        return NotFound;
      }
      if users[uid].isAdmin {
        return Rejected;
      }
      var deactivateTime := "";
      if deactivate {
        deactivateTime := Decimal(now);
        if users[uid].deactivatedAt.Some? {
          return Rejected;
        }
      }
      users := users[uid := users[uid].(deactivatedAt := if deactivate then Some(deactivateTime) else None)];
      projects := OwnedMarked(projects, uid, deactivateTime);
      return Done;
    }
  }
}
