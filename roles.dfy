/**
 * The role and category values shared by the role settings page
 * (src/app/server-settings/components/ServerSettings/Role.tsx), the self-assign dialog
 * (src/components/SelfAssignRoles.tsx) and the channel form
 * (src/app/server-settings/components/ServerSettings/AddChannel.tsx): the filter that hides
 * system roles, the grouping by category and the category lookups.
 */
module Roles {
  import opened Wrappers

  /** `role_type` of src/api/types/roles.types.ts. */
  datatype RoleType = Owner | Admin | Custom | SelfAssignable

  /** The fields of a role that the views read or change. */
  datatype Role = Role(
    id: string,
    name: string,
    color: string,
    roleType: RoleType,
    isSelfAssignable: bool,
    categoryId: Option<string>,
    hasRole: Option<bool>)

  datatype Category = Category(id: string, name: string, description: Option<string>)

  const Uncategorized := "uncategorized"
  const OtherRoles := "Other Roles"

  predicate IsSystemRole(r: Role) {
    r.roleType == Owner || r.roleType == Admin
  }

  /** `filter(r => r.role_type !== 'owner' && r.role_type !== 'admin')`. */
  function WithoutSystemRoles(rs: seq<Role>): (r: seq<Role>)
    ensures forall x :: x in r <==> x in rs && !IsSystemRole(x)
    ensures |r| <= |rs|
    decreases |rs|
  {
    if rs == [] then []
    else if IsSystemRole(rs[0]) then WithoutSystemRoles(rs[1..])
    else [rs[0]] + WithoutSystemRoles(rs[1..])
  }

  /** `role.category_id || "uncategorized"`. */
  function CategoryKey(r: Role): string {
    OrElse(r.categoryId, Uncategorized)
  }

  /** The roles of `rs` whose bucket is `k`, in the order of `rs`. */
  function InCategory(rs: seq<Role>, k: string): (r: seq<Role>)
    ensures forall x :: x in r <==> x in rs && CategoryKey(x) == k
    decreases |rs|
  {
    if rs == [] then []
    else
      var init := InCategory(rs[..|rs| - 1], k);
      var last := rs[|rs| - 1];
      assert forall x :: x in rs <==> x in rs[..|rs| - 1] || x == last;
      if CategoryKey(last) == k then init + [last] else init
  }

  predicate HasKey(rs: seq<Role>, k: string) {
    exists x :: x in rs && CategoryKey(x) == k
  }

  lemma {:induction false} NoKeyEmptyBucket(rs: seq<Role>, k: string)
    requires !HasKey(rs, k)
    ensures InCategory(rs, k) == []
    decreases |rs|
  {
    if rs != [] {
      assert rs[|rs| - 1] in rs;
      assert forall x :: x in rs[..|rs| - 1] ==> x in rs;
      NoKeyEmptyBucket(rs[..|rs| - 1], k);
    }
  }

  /** One more role: its bucket gains it at the end, and its key is now present. */
  lemma GroupStep(rs: seq<Role>, j: nat, k: string)
    requires j < |rs|
    ensures InCategory(rs[..j + 1], k) == InCategory(rs[..j], k) + (if CategoryKey(rs[j]) == k then [rs[j]] else [])
    ensures HasKey(rs[..j + 1], k) <==> HasKey(rs[..j], k) || CategoryKey(rs[j]) == k
  {
    var pre := rs[..j + 1];
    assert pre[..j] == rs[..j] && pre[j] == rs[j];
    assert forall x :: x in pre <==> x in rs[..j] || x == rs[j];
  }

  /**
   * The `reduce` that pushes each role onto the array of its bucket, creating the array at
   * the bucket's first role: there is a bucket exactly for each key some role has, and it
   * holds the roles with that key in input order, so each role is in exactly one bucket.
   */
  method GroupByCategory(roles: seq<Role>) returns (groups: map<string, seq<Role>>)
    ensures forall k :: k in groups <==> HasKey(roles, k)
    ensures forall k :: k in groups ==> groups[k] == InCategory(roles, k)
  {
    groups := map[];
    for j := 0 to |roles|
      invariant forall k :: k in groups <==> HasKey(roles[..j], k)
      invariant forall k :: k in groups ==> groups[k] == InCategory(roles[..j], k)
    {
      var role := roles[j];
      var k := CategoryKey(role);
      forall k' | true
        ensures InCategory(roles[..j + 1], k') == InCategory(roles[..j], k') + (if k == k' then [role] else [])
        ensures HasKey(roles[..j + 1], k') <==> HasKey(roles[..j], k') || k == k'
      {
        GroupStep(roles, j, k');
      }
      if k !in groups {
        NoKeyEmptyBucket(roles[..j], k);
        groups := groups[k := []];
      }
      groups := groups[k := groups[k] + [role]];
    }
    assert roles[..|roles|] == roles;
  }

  /** The position of the first category with that id, or `|cats|` when there is none. */
  function FirstWithId(cats: seq<Category>, id: string): (k: nat)
    ensures k <= |cats|
    ensures k < |cats| ==> cats[k].id == id
    ensures forall i :: 0 <= i < k ==> cats[i].id != id
    decreases |cats|
  {
    if cats == [] then 0
    else if cats[0].id == id then 0
    else 1 + FirstWithId(cats[1..], id)
  }

  /** `categories.find(c => c.id === categoryId)`: the first category with that id, if any. */
  function FindCategory(cats: seq<Category>, id: string): (r: Option<Category>)
    ensures r.None? <==> forall c :: c in cats ==> c.id != id
    ensures r.Some? ==> r.value in cats && r.value.id == id
    ensures r.Some? ==> r.value == cats[FirstWithId(cats, id)]
  {
    var k := FirstWithId(cats, id);
    if k < |cats| then Some(cats[k]) else None
  }

  /**
   * `getCategoryName`: "Other Roles" for the uncategorized bucket, for an unknown id and for a
   * category whose name is empty; otherwise the name of the first category with that id.
   */
  function CategoryName(cats: seq<Category>, id: string): (n: string)
    ensures n != ""
    ensures id == Uncategorized ==> n == OtherRoles
    ensures (forall c :: c in cats ==> c.id != id) ==> n == OtherRoles
    ensures n != OtherRoles ==> exists c :: c in cats && c.id == id && c.name == n
    ensures id != Uncategorized && FindCategory(cats, id).Some? && FindCategory(cats, id).value.name != "" ==>
      n == FindCategory(cats, id).value.name
    ensures id != Uncategorized && FindCategory(cats, id).Some? && FindCategory(cats, id).value.name == "" ==>
      n == OtherRoles
  {
    if id == Uncategorized then OtherRoles
    else
      var c := FindCategory(cats, id);
      if c.Some? && c.value.name != "" then c.value.name else OtherRoles
  }

  /**
   * `getCategoryDescription`: nothing for the uncategorized bucket or an unknown id, otherwise
   * the description of the first category with that id (which may itself be null).
   */
  function CategoryDescription(cats: seq<Category>, id: string): (d: Option<string>)
    ensures id == Uncategorized ==> d.None?
    ensures (forall c :: c in cats ==> c.id != id) ==> d.None?
    ensures d.Some? ==> exists c :: c in cats && c.id == id && c.description == d
    ensures id != Uncategorized && FindCategory(cats, id).Some? ==> d == FindCategory(cats, id).value.description
  {
    if id == Uncategorized then None
    else
      var c := FindCategory(cats, id);
      if c.Some? then c.value.description else None
  }

  /** `roles.some(r => r.id === roleId)`. */
  predicate HasRoleId(rs: seq<Role>, roleId: string) {
    exists x :: x in rs && x.id == roleId
  }

  /** `filter(x => x.id !== id)` over any list of records carrying an id. */
  function WithoutId<T(!new)>(xs: seq<T>, idOf: T -> string, id: string): (r: seq<T>)
    ensures forall x :: x in r <==> x in xs && idOf(x) != id
    ensures |r| <= |xs|
    decreases |xs|
  {
    if xs == [] then []
    else if idOf(xs[0]) == id then WithoutId(xs[1..], idOf, id)
    else [xs[0]] + WithoutId(xs[1..], idOf, id)
  }

  function RoleId(r: Role): string { r.id }
  function CategoryId(c: Category): string { c.id }

  /** `roles.filter(r => r.id !== roleId)`. */
  function RemoveRole(rs: seq<Role>, roleId: string): seq<Role> {
    WithoutId(rs, RoleId, roleId)
  }

  /** `categories.filter(c => c.id !== categoryId)`. */
  function RemoveCategory(cs: seq<Category>, categoryId: string): seq<Category> {
    WithoutId(cs, CategoryId, categoryId)
  }

  /** `roles.find(r => r.id === roleId)`. */
  function FindRole(rs: seq<Role>, roleId: string): (r: Option<Role>)
    ensures r.None? <==> forall x :: x in rs ==> x.id != roleId
    ensures r.Some? ==> r.value in rs && r.value.id == roleId
    ensures r.Some? ==> exists k :: 0 <= k < |rs| && rs[k] == r.value && forall i :: 0 <= i < k ==> rs[i].id != roleId
    decreases |rs|
  {
    if rs == [] then None
    else if rs[0].id == roleId then Some(rs[0])
    else FindRole(rs[1..], roleId)
  }

  /** Filtering by id distributes over concatenation: order and repetitions are kept. */
  lemma {:induction false} WithoutIdAppend<T(!new)>(xs: seq<T>, more: seq<T>, idOf: T -> string, id: string)
    ensures WithoutId(xs + more, idOf, id) == WithoutId(xs, idOf, id) + WithoutId(more, idOf, id)
    decreases |xs|
  {
    if xs != [] {
      assert (xs + more)[1..] == xs[1..] + more;
      WithoutIdAppend(xs[1..], more, idOf, id);
    } else {
      assert xs + more == more;
    }
  }

  /** Removing an id that no record carries changes nothing. */
  lemma {:induction false} WithoutAbsentId<T(!new)>(xs: seq<T>, idOf: T -> string, id: string)
    requires forall x :: x in xs ==> idOf(x) != id
    ensures WithoutId(xs, idOf, id) == xs
    decreases |xs|
  {
    if xs != [] {
      assert forall x :: x in xs[1..] ==> x in xs;
      WithoutAbsentId(xs[1..], idOf, id);
      assert [xs[0]] + xs[1..] == xs;
    }
  }

  /** Hiding the system roles distributes over concatenation: order and repetitions are kept. */
  lemma {:induction false} WithoutSystemRolesAppend(rs: seq<Role>, more: seq<Role>)
    ensures WithoutSystemRoles(rs + more) == WithoutSystemRoles(rs) + WithoutSystemRoles(more)
    decreases |rs|
  {
    if rs != [] {
      assert (rs + more)[1..] == rs[1..] + more;
      WithoutSystemRolesAppend(rs[1..], more);
    } else {
      assert rs + more == more;
    }
  }
}
