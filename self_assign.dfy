/**
 * src/components/SelfAssignRoles.tsx: the dialog in which a member assigns or unassigns one
 * self-assignable role at a time. Each click flips membership of the clicked role in the
 * member's list and its `has_role` flag in the list of assignable roles, or leaves both lists
 * alone and reports an error.
 */
module SelfAssign {
  import opened Wrappers
  import opened Roles

  /** The member's list after a successful call: the role removed if held, appended otherwise. */
  function ToggledMine(mine: seq<Role>, role: Role, hasRole: bool): (r: seq<Role>)
    ensures HasRoleId(r, role.id) <==> !hasRole
    ensures !hasRole ==> r == mine + [role]
    ensures forall x: Role :: x.id != role.id ==> (x in r <==> x in mine)
  {
    if hasRole then RemoveRole(mine, role.id)
    else
      assert forall x :: x in mine + [role] <==> x in mine || x == role;
      mine + [role]
  }

  /** `map(r => r.id === roleId ? { ...r, has_role: v } : r)`. */
  function MarkHasRole(rs: seq<Role>, roleId: string, v: bool): (r: seq<Role>)
    ensures |r| == |rs|
    ensures forall i :: 0 <= i < |rs| ==> r[i] == if rs[i].id == roleId then rs[i].(hasRole := Some(v)) else rs[i]
  {
    seq(|rs|, i requires 0 <= i < |rs| => if rs[i].id == roleId then rs[i].(hasRole := Some(v)) else rs[i])
  }

  /** Marking keeps every id in place and touches no role with another id. */
  lemma MarkHasRoleKeepsOthers(rs: seq<Role>, roleId: string, v: bool)
    ensures forall i :: 0 <= i < |rs| ==> MarkHasRole(rs, roleId, v)[i].id == rs[i].id
    ensures forall i :: 0 <= i < |rs| && rs[i].id == roleId ==> MarkHasRole(rs, roleId, v)[i].hasRole == Some(v)
    ensures forall x :: x in rs && x.id != roleId ==> x in MarkHasRole(rs, roleId, v)
  {
    forall x | x in rs && x.id != roleId ensures x in MarkHasRole(rs, roleId, v) {
      var i :| 0 <= i < |rs| && rs[i] == x;
      assert MarkHasRole(rs, roleId, v)[i] == x;
    }
  }

  /**
   * Clicking a role that is not held and then clicking it again, both calls succeeding,
   * gives the member's list back exactly.
   */
  lemma AssignThenUnassign(mine: seq<Role>, role: Role)
    requires !HasRoleId(mine, role.id)
    ensures var once := ToggledMine(mine, role, false);
      HasRoleId(once, role.id) && ToggledMine(once, role, true) == mine
  {
    var once := ToggledMine(mine, role, false);
    assert once == mine + [role];
    WithoutIdAppend(mine, [role], RoleId, role.id);
    WithoutAbsentId(mine, RoleId, role.id);
    assert RemoveRole([role], role.id) == [];
  }

  class SelfAssignView {
    var selfAssignableRoles: seq<Role>
    var myRoles: seq<Role>
    var categories: seq<Category>
    var loading: bool
    var error: Option<string>
    /** The id of the role whose call is in flight; its button is disabled. */
    var actionLoading: Option<string>

    constructor ()
      ensures selfAssignableRoles == [] && myRoles == [] && categories == []
      ensures loading && error == None && actionLoading == None
    {
      selfAssignableRoles, myRoles, categories := [], [], [];
      loading, error, actionLoading := true, None, None;
    }

    /** The load effect succeeded: the three lists as the server sent them. */
    method Loaded(rolesData: seq<Role>, myRolesData: seq<Role>, categoriesData: seq<Category>)
      modifies this`selfAssignableRoles, this`myRoles, this`categories, this`loading
      ensures selfAssignableRoles == rolesData && myRoles == myRolesData && categories == categoriesData
      ensures !loading
    {
      selfAssignableRoles, myRoles, categories := rolesData, myRolesData, categoriesData;
      loading := false;
    }

    method LoadFailed(e: Option<string>)
      modifies this`error, this`loading
      ensures error == Some(OrElse(e, "Failed to load roles")) && !loading
    {
      error := Some(OrElse(e, "Failed to load roles"));
      loading := false;
    }

    /**
     * `handleToggleRole` up to the call: the button is marked busy, the error cleared, and
     * whether the role is held decides which call is made. The handler's closure holds the two
     * lists of the render the click came from, and those are what it later updates; they are
     * returned here so that the matching `EndToggle` gets them.
     */
    method BeginToggle(role: Role) returns (hasRole: bool, mine: seq<Role>, assignable: seq<Role>)
      modifies this`actionLoading, this`error
      ensures hasRole <==> HasRoleId(myRoles, role.id)
      ensures mine == myRoles && assignable == selfAssignableRoles
      ensures actionLoading == Some(role.id) && error == None
    {
      actionLoading := Some(role.id);
      error := None;
      mine, assignable := myRoles, selfAssignableRoles;
      hasRole := FindRole(mine, role.id).Some?;
    }

    /**
     * `handleToggleRole` after the call settled: on success both lists are set to the flip of
     * the lists captured at the click, whatever they hold now; on failure both lists stay as
     * they are and the error is set. Either way the button is released.
     */
    method EndToggle(role: Role, hasRole: bool, mine: seq<Role>, assignable: seq<Role>,
                     outcome: Result<(), Option<string>>)
      modifies this`myRoles, this`selfAssignableRoles, this`error, this`actionLoading
      ensures outcome.Ok? ==>
        && myRoles == ToggledMine(mine, role, hasRole)
        && selfAssignableRoles == MarkHasRole(assignable, role.id, !hasRole)
        && error == old(error)
      ensures outcome.Err? ==>
        && myRoles == old(myRoles) && selfAssignableRoles == old(selfAssignableRoles)
        && error == Some(OrElse(outcome.error, "Failed to update role"))
      ensures actionLoading == None
    {
      match outcome {
        case Ok(_) =>
          myRoles := ToggledMine(mine, role, hasRole);
          selfAssignableRoles := MarkHasRole(assignable, role.id, !hasRole);
        case Err(e) =>
          error := Some(OrElse(e, "Failed to update role"));
      }
      actionLoading := None;
    }

    /** A role's button is disabled while its own call is in flight. */
    predicate ButtonDisabled(role: Role)
      reads this
    {
      actionLoading == Some(role.id)
    }

    /** The empty-state message is shown once loading is over and no role can be picked. */
    predicate ShowsEmptyState()
      reads this
    {
      !loading && selfAssignableRoles == []
    }
  }

  /**
   * One click with a successful call: afterwards the member holds the role exactly when they
   * did not before, the roles with other ids are untouched, and no button is busy.
   */
  method ToggleOnce(v: SelfAssignView, role: Role) returns (hadRole: bool)
    modifies v
    ensures hadRole <==> HasRoleId(old(v.myRoles), role.id)
    ensures HasRoleId(v.myRoles, role.id) <==> !hadRole
    ensures forall x: Role :: x.id != role.id ==> (x in v.myRoles <==> x in old(v.myRoles))
    ensures v.error == None && v.actionLoading == None
  {
    var mine, assignable;
    hadRole, mine, assignable := v.BeginToggle(role);
    v.EndToggle(role, hadRole, mine, assignable, Ok(()));
  }

  /**
   * Two clicks on different roles the member does not hold, the second before the first call
   * settles (only the clicked button is disabled), and both calls succeeding in click order:
   * both closures captured the same list, so the second write replaces the first and the
   * member's list ends with the second role only.
   */
  method OverlappingAssigns(v: SelfAssignView, a: Role, b: Role)
    requires a.id != b.id
    requires !HasRoleId(v.myRoles, a.id) && !HasRoleId(v.myRoles, b.id)
    modifies v
    ensures v.myRoles == old(v.myRoles) + [b]
    ensures !HasRoleId(v.myRoles, a.id)
  {
    var hasA, mineA, assignableA := v.BeginToggle(a);
    var hasB, mineB, assignableB := v.BeginToggle(b);
    v.EndToggle(a, hasA, mineA, assignableA, Ok(()));
    v.EndToggle(b, hasB, mineB, assignableB, Ok(()));
    assert forall x :: x in v.myRoles ==> x in old(v.myRoles) || x == b;
  }
}
