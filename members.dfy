/**
 * src/app/server-settings/components/ServerSettings/Members.tsx: the member table of the server
 * settings. Every handler builds a new list of members from the old one; the page state is a
 * value and each handler a function from the old state to the new one.
 */
module Members {
  import opened Wrappers
  import opened Text
  import opened RoleSettings

  datatype Member = Member(id: int, username: string, roles: seq<string>, joinDate: string, avatar: string)

  /** The page state: the list, the add-member form and the member whose role picker is open. */
  datatype PageState = PageState(
    members: seq<Member>,
    showAddMember: bool,
    newUsername: string,
    showRolePopupFor: Option<int>)

  const AvatarList := ["/avatar1.jpg", "/avatar2.jpg", "/avatar3.jpg"]

  /** The names of `availableRoles`, in the order the picker lists them. */
  const AvailableRoles := ["Admin", "Moderator", "Member"]

  const InitialMembers := [
    Member(1, "@johndoe", ["Admin", "Member"], "Jan 2024", "/avatar1.jpg"),
    Member(2, "@sophiedee", ["Member"], "May 2024", "/avatar2.jpg"),
    Member(3, "@alexdev", ["Moderator", "Member"], "Mar 2024", "/avatar3.jpg")]

  const InitialState := PageState(InitialMembers, false, "", None)

  // ---------------------------------------------------------------------------------------
  // Member list edits
  // ---------------------------------------------------------------------------------------

  /** `members.filter(m => m.id !== memberId)`. */
  function Kick(ms: seq<Member>, memberId: int): (r: seq<Member>)
    ensures forall m :: m in r <==> m in ms && m.id != memberId
    ensures SubsequenceOf(r, ms)
    decreases |ms|
  {
    if ms == [] then []
    else
      var rest := Kick(ms[1..], memberId);
      assert forall m :: m in ms <==> m == ms[0] || m in ms[1..];
      if ms[0].id == memberId then
        SkipHead(rest, ms);
        rest
      else
        ConsHead(rest, ms);
        [ms[0]] + rest
  }

  /** Kicking an id nobody has leaves the list exactly as it was. */
  lemma {:induction false} KickAbsent(ms: seq<Member>, memberId: int)
    requires forall m :: m in ms ==> m.id != memberId
    ensures Kick(ms, memberId) == ms
    decreases |ms|
  {
    if ms != [] {
      assert forall m :: m in ms[1..] ==> m in ms;
      KickAbsent(ms[1..], memberId);
      assert [ms[0]] + ms[1..] == ms;
    }
  }

  /** The roles of one member after `handleAddRoleToMember`: a held role is not added twice. */
  function WithRole(roles: seq<string>, role: string): (r: seq<string>)
    ensures role in r && forall x :: x in r <==> x in roles || x == role
    ensures role in roles ==> r == roles
    ensures role !in roles ==> r == roles + [role]
  {
    if role in roles then roles else roles + [role]
  }

  /** `handleAddRoleToMember`'s map: only the members with that id, and only if they lack the role. */
  function AddRoleTo(ms: seq<Member>, memberId: int, role: string): (r: seq<Member>)
    ensures |r| == |ms|
    ensures forall i :: 0 <= i < |ms| ==> r[i] == if ms[i].id == memberId then ms[i].(roles := WithRole(ms[i].roles, role)) else ms[i]
  {
    seq(|ms|, i requires 0 <= i < |ms| => if ms[i].id == memberId then ms[i].(roles := WithRole(ms[i].roles, role)) else ms[i])
  }

  /** `handleRemoveRoleFromMember`'s map: every occurrence of the role, on that member only. */
  function RemoveRoleFrom(ms: seq<Member>, memberId: int, role: string): (r: seq<Member>)
    ensures |r| == |ms|
    ensures forall i :: 0 <= i < |ms| ==> r[i] == if ms[i].id == memberId then ms[i].(roles := RemoveId(ms[i].roles, role)) else ms[i]
  {
    seq(|ms|, i requires 0 <= i < |ms| => if ms[i].id == memberId then ms[i].(roles := RemoveId(ms[i].roles, role)) else ms[i])
  }

  /**
   * Adding a role: every member with that id holds it afterwards, nobody else changes, and
   * adding it a second time changes nothing.
   */
  lemma AddRoleProperties(ms: seq<Member>, memberId: int, role: string)
    ensures var r := AddRoleTo(ms, memberId, role);
      && (forall i :: 0 <= i < |r| ==> r[i].id == ms[i].id)
      && (forall i :: 0 <= i < |r| && ms[i].id == memberId ==> role in r[i].roles)
      && (forall i :: 0 <= i < |r| && ms[i].id != memberId ==> r[i] == ms[i])
      && AddRoleTo(r, memberId, role) == r
  {
  }

  /**
   * Removing a role: no member with that id holds it afterwards and their other roles stay;
   * nobody else changes.
   */
  lemma RemoveRoleProperties(ms: seq<Member>, memberId: int, role: string)
    ensures var r := RemoveRoleFrom(ms, memberId, role);
      && (forall i :: 0 <= i < |r| ==> r[i].id == ms[i].id)
      && (forall i :: 0 <= i < |r| && ms[i].id == memberId ==>
            forall x :: x in r[i].roles <==> x in ms[i].roles && x != role)
      && (forall i :: 0 <= i < |r| && ms[i].id != memberId ==> r[i] == ms[i])
  {
  }

  /** Adding a role a member lacks and then removing it gives the very same list back. */
  lemma AddThenRemove(ms: seq<Member>, memberId: int, role: string)
    requires forall i :: 0 <= i < |ms| && ms[i].id == memberId ==> role !in ms[i].roles
    ensures RemoveRoleFrom(AddRoleTo(ms, memberId, role), memberId, role) == ms
  {
    var r := RemoveRoleFrom(AddRoleTo(ms, memberId, role), memberId, role);
    forall i | 0 <= i < |ms| ensures r[i] == ms[i] {
      if ms[i].id == memberId {
        RemoveAppended(ms[i].roles, role);
      }
    }
  }

  // ---------------------------------------------------------------------------------------
  // The role picker
  // ---------------------------------------------------------------------------------------

  /** `roles.filter(r => !held.includes(r))`, keeping the order of `roles`. */
  function Lacking(roles: seq<string>, held: seq<string>): (r: seq<string>)
    ensures forall x :: x in r <==> x in roles && x !in held
    ensures SubsequenceOf(r, roles)
    decreases |roles|
  {
    if roles == [] then []
    else
      var rest := Lacking(roles[1..], held);
      assert forall x :: x in roles <==> x == roles[0] || x in roles[1..];
      if roles[0] in held then
        SkipHead(rest, roles);
        rest
      else
        ConsHead(rest, roles);
        [roles[0]] + rest
  }

  /** The picker lists exactly the available roles that the member does not hold yet. */
  function PickerRoles(m: Member): (r: seq<string>)
    ensures forall x :: x in r <==> x in AvailableRoles && x !in m.roles
  {
    Lacking(AvailableRoles, m.roles)
  }

  /** "All roles assigned" is shown when the filtered list is empty. */
  predicate ShowsAllAssigned(m: Member) {
    |PickerRoles(m)| == 0
  }

  /** The placeholder is shown exactly when the member holds every available role. */
  lemma AllAssignedIffAllHeld(m: Member)
    ensures ShowsAllAssigned(m) <==> forall x :: x in AvailableRoles ==> x in m.roles
  {
    if !ShowsAllAssigned(m) {
      assert PickerRoles(m)[0] in PickerRoles(m);
    } else {
      forall x | x in AvailableRoles ensures x in m.roles {
        assert x !in PickerRoles(m);
      }
    }
  }

  /** A role picked from the list is gone from that member's list after the add. */
  lemma PickedRoleLeavesPicker(ms: seq<Member>, i: nat, role: string)
    requires i < |ms| && role in PickerRoles(ms[i])
    ensures role !in PickerRoles(AddRoleTo(ms, ms[i].id, role)[i])
  {
  }

  // ---------------------------------------------------------------------------------------
  // The handlers on the page state
  // ---------------------------------------------------------------------------------------

  /** `handleKickMember`. */
  function HandleKick(st: PageState, memberId: int): (r: PageState)
    ensures r.members == Kick(st.members, memberId)
    ensures r == st.(members := r.members)
  {
    st.(members := Kick(st.members, memberId))
  }

  /** `handleBanMember` only shows an alert: the state is left as it was. */
  function HandleBan(st: PageState, memberId: int): (r: PageState)
    ensures r == st
  {
    st
  }

  /** `handleAddRoleToMember`: the role is added and the picker closed. */
  function HandleAddRole(st: PageState, memberId: int, role: string): (r: PageState)
    ensures r.members == AddRoleTo(st.members, memberId, role) && r.showRolePopupFor == None
    ensures r.showAddMember == st.showAddMember && r.newUsername == st.newUsername
  {
    st.(members := AddRoleTo(st.members, memberId, role), showRolePopupFor := None)
  }

  /** `handleRemoveRoleFromMember`: the picker stays as it is. */
  function HandleRemoveRole(st: PageState, memberId: int, role: string): (r: PageState)
    ensures r == st.(members := RemoveRoleFrom(st.members, memberId, role))
  {
    st.(members := RemoveRoleFrom(st.members, memberId, role))
  }

  /**
   * `handleAddMember`. `newId`, `joinDate` and `pick` stand for `Date.now()`, the formatted
   * date and the random avatar index. A name that trims to nothing leaves the whole state
   * alone; otherwise a member with the untrimmed name and the single role "Member" is
   * appended and the form closes.
   */
  function HandleAddMember(st: PageState, newId: int, joinDate: string, pick: nat): (r: PageState)
    requires pick < |AvatarList|
    ensures Trim(st.newUsername) == [] ==> r == st
    ensures Trim(st.newUsername) != [] ==>
      && r.members == st.members + [Member(newId, st.newUsername, ["Member"], joinDate, AvatarList[pick])]
      && r.newUsername == "" && !r.showAddMember && r.showRolePopupFor == st.showRolePopupFor
  {
    if Trim(st.newUsername) != [] then
      var m := Member(newId, st.newUsername, ["Member"], joinDate, AvatarList[pick]);
      st.(members := st.members + [m], newUsername := "", showAddMember := false)
    else st
  }

  /** A newly added member can be kicked again: that gives back the list from before the add. */
  lemma AddThenKick(st: PageState, newId: int, joinDate: string, pick: nat)
    requires pick < |AvatarList| && Trim(st.newUsername) != []
    requires forall m :: m in st.members ==> m.id != newId
    ensures Kick(HandleAddMember(st, newId, joinDate, pick).members, newId) == st.members
  {
    var added := HandleAddMember(st, newId, joinDate, pick).members;
    KickAppend(st.members, [added[|added| - 1]], newId);
    KickAbsent(st.members, newId);
  }

  lemma {:induction false} KickAppend(a: seq<Member>, b: seq<Member>, memberId: int)
    ensures Kick(a + b, memberId) == Kick(a, memberId) + Kick(b, memberId)
    decreases |a|
  {
    if a == [] {
      assert a + b == b;
    } else {
      assert (a + b)[1..] == a[1..] + b;
      KickAppend(a[1..], b, memberId);
    }
  }
}
