/** The user-management page: admins and moderators list the profiles and change roles. */
module UserManagementPage {
  import opened Wrappers
  import opened Records

  /** The page opens only for a signed-in admin or moderator. */
  predicate CanAccess(viewer: Option<Profile>) {
    viewer.Some? && (viewer.value.role == Admin || viewer.value.role == Moderator)
  }

  datatype PageView = AccessDenied | Loading | UserTable

  /** What the page renders: the access check comes before the loading state. */
  function ViewFor(viewer: Option<Profile>, loading: bool): (v: PageView)
    ensures v == AccessDenied <==> !CanAccess(viewer)
    ensures v == Loading <==> CanAccess(viewer) && loading
  {
    if !CanAccess(viewer) then AccessDenied
    else if loading then Loading
    else UserTable
  }

  /** A signed-out viewer or a member is denied, even while the list loads. */
  lemma DeniedBeforeLoading(viewer: Option<Profile>, loading: bool)
    requires viewer.None? || viewer.value.role == Member
    ensures ViewFor(viewer, loading) == AccessDenied
  {
  }

  /** The menu items offered for a user: each role other than the current one, in the order
      admin, moderator, member. */
  function RoleMenu(current: Role): (items: seq<Role>)
    ensures current !in items
    ensures forall r :: r != current ==> r in items
  {
    (if current != Admin then [Admin] else [])
    + (if current != Moderator then [Moderator] else [])
    + (if current != Member then [Member] else [])
  }

  /** The menu for each role, in the order the page lists the items. */
  lemma RoleMenuOrder()
    ensures RoleMenu(Admin) == [Moderator, Member]
    ensures RoleMenu(Moderator) == [Admin, Member]
    ensures RoleMenu(Member) == [Admin, Moderator]
  {
  }

  /** Every user is offered exactly two other roles, without repetition. */
  lemma RoleMenuHasTwo(current: Role)
    ensures |RoleMenu(current)| == 2
    ensures RoleMenu(current)[0] != RoleMenu(current)[1]
  {
  }

  datatype BadgeVariant = Default | Secondary

  function RoleBadge(role: Role): BadgeVariant {
    if role == Admin || role == Moderator then Default else Secondary
  }

  /** The highlighted badge marks exactly the roles that may open this page. */
  lemma BadgeMarksStaff(p: Profile)
    ensures RoleBadge(p.role) == Default <==> CanAccess(Some(p))
  {
  }

  /** The store after `update({ role }).eq('id', userId)` on the profiles. */
  function ApplyRoleChange(users: seq<Profile>, userId: string, newRole: Role): (r: seq<Profile>)
    ensures |r| == |users|
    ensures forall i :: 0 <= i < |users| ==> r[i] == if users[i].id == userId then users[i].(role := newRole) else users[i]
  {
    seq(|users|, i requires 0 <= i < |users| => if users[i].id == userId then users[i].(role := newRole) else users[i])
  }

  /** A role change touches only the role of the named user: every other field of every
      profile, and every other profile, stays as it was. */
  lemma RoleChangeTouchesOnlyRole(users: seq<Profile>, userId: string, newRole: Role)
    ensures var r := ApplyRoleChange(users, userId, newRole);
            forall i :: 0 <= i < |users| ==>
              r[i].(role := users[i].role) == users[i]
              && (r[i].id == userId ==> r[i].role == newRole)
              && (r[i].id != userId ==> r[i] == users[i])
  {
  }

  /** Repeating a role change changes nothing more. */
  lemma RoleChangeIdempotent(users: seq<Profile>, userId: string, newRole: Role)
    ensures ApplyRoleChange(ApplyRoleChange(users, userId, newRole), userId, newRole)
            == ApplyRoleChange(users, userId, newRole)
  {
  }
}
