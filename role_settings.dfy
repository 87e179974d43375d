/**
 * src/app/server-settings/components/ServerSettings/Role.tsx: the member view, where a member
 * picks self-assignable roles and saves the difference, and the admin view, where roles and
 * categories are created, edited and deleted under the owner/admin rules.
 */
module RoleSettings {
  import opened Wrappers
  import opened Text
  import opened Roles

  // ---------------------------------------------------------------------------------------
  // Id lists and the selection
  // ---------------------------------------------------------------------------------------

  /** `roles.map(r => r.id)`. */
  function RoleIds(rs: seq<Role>): (r: seq<string>)
    ensures |r| == |rs| && forall i :: 0 <= i < |rs| ==> r[i] == rs[i].id
  {
    seq(|rs|, i requires 0 <= i < |rs| => rs[i].id)
  }

  /** `a` is `b` with some elements left out, the rest in their order. */
  predicate SubsequenceOf<T(==)>(a: seq<T>, b: seq<T>)
    decreases |b|
  {
    if a == [] then true
    else if b == [] then false
    else (a[0] == b[0] && SubsequenceOf(a[1..], b[1..])) || SubsequenceOf(a, b[1..])
  }

  lemma SkipHead<T>(a: seq<T>, b: seq<T>)
    requires b != [] && SubsequenceOf(a, b[1..])
    ensures SubsequenceOf(a, b)
  {
  }

  lemma ConsHead<T>(a: seq<T>, b: seq<T>)
    requires b != [] && SubsequenceOf(a, b[1..])
    ensures SubsequenceOf([b[0]] + a, b)
  {
    assert ([b[0]] + a)[1..] == a;
  }

  predicate NoDup(s: seq<string>) {
    forall i, j :: 0 <= i < j < |s| ==> s[i] != s[j]
  }

  /**
   * `Array.from(new Set(ids))`: each id once. `DedupPrefix` adds that the order is that of
   * first occurrences.
   */
  function Dedup(ids: seq<string>): (r: seq<string>)
    ensures NoDup(r)
    ensures forall x :: x in r <==> x in ids
    decreases |ids|
  {
    if ids == [] then []
    else
      var init := Dedup(ids[..|ids| - 1]);
      var last := ids[|ids| - 1];
      assert forall x :: x in ids <==> x in ids[..|ids| - 1] || x == last;
      if last in init then init else init + [last]
  }

  /**
   * A Set iterates in insertion order: deduplicating a prefix of the ids gives a prefix of
   * deduplicating them all. With `NoDup` and the membership clause this fixes the order, since
   * each id is then placed when it first occurs and never moves.
   */
  lemma {:induction false} DedupPrefix(ids: seq<string>, k: nat)
    requires k <= |ids|
    ensures Dedup(ids[..k]) <= Dedup(ids)
    decreases |ids|
  {
    if k < |ids| {
      var init := ids[..|ids| - 1];
      assert ids[..k] == init[..k];
      DedupPrefix(init, k);
    } else {
      assert ids[..k] == ids;
    }
  }

  /** The ids after `x` in one position: `x` joins at the end exactly when it is new. */
  lemma DedupSnoc(ids: seq<string>, x: string)
    ensures Dedup(ids + [x]) == if x in Dedup(ids) then Dedup(ids) else Dedup(ids) + [x]
  {
    assert (ids + [x])[..|ids|] == ids;
  }

  /** The ids of `s` other than `id`, in order. */
  function RemoveId(s: seq<string>, id: string): (r: seq<string>)
    ensures forall x :: x in r <==> x in s && x != id
    ensures NoDup(s) ==> NoDup(r)
    decreases |s|
  {
    if s == [] then []
    else
      var rest := RemoveId(s[1..], id);
      assert forall x :: x in s <==> x == s[0] || x in s[1..];
      if s[0] == id then rest
      else
        assert NoDup(s) ==> s[0] !in s[1..];
        assert NoDup(s) ==> NoDup(s[1..]) by {
          if NoDup(s) {
            forall i, j | 0 <= i < j < |s[1..]| ensures s[1..][i] != s[1..][j] {
              assert s[1..][i] == s[i + 1] && s[1..][j] == s[j + 1];
            }
          }
        }
        NoDupCons(s[0], rest);
        [s[0]] + rest
  }

  lemma NoDupCons(x: string, s: seq<string>)
    ensures x !in s && NoDup(s) ==> NoDup([x] + s)
  {
    if x !in s && NoDup(s) {
      var r := [x] + s;
      forall i, j | 0 <= i < j < |r| ensures r[i] != r[j] {
        assert r[j] == s[j - 1];
        if i > 0 { assert r[i] == s[i - 1]; }
      }
    }
  }

  /** `toggleRole` on the copied Set: delete the id when present, otherwise add it at the end. */
  function ToggleSelection(sel: seq<string>, id: string): (r: seq<string>)
    ensures forall x :: x in r <==> (x in sel && x != id) || (x == id && id !in sel)
    ensures id !in sel ==> r == sel + [id]
    ensures NoDup(sel) ==> NoDup(r)
  {
    if id in sel then RemoveId(sel, id)
    else
      assert NoDup(sel) ==> NoDup(sel + [id]) by {
        if NoDup(sel) {
          forall i, j | 0 <= i < j < |sel + [id]| ensures (sel + [id])[i] != (sel + [id])[j] {
            if j == |sel| { assert (sel + [id])[i] == sel[i]; }
          }
        }
      }
      sel + [id]
  }

  /** The kept ids stay in their order: the result is a subsequence. */
  lemma {:induction false} RemoveIdInOrder(s: seq<string>, id: string)
    ensures SubsequenceOf(RemoveId(s, id), s)
    decreases |s|
  {
    if s != [] {
      RemoveIdInOrder(s[1..], id);
      if s[0] == id { SkipHead(RemoveId(s[1..], id), s); } else { ConsHead(RemoveId(s[1..], id), s); }
    }
  }

  /** Removal works element by element, so, with the subsequence clause, it keeps order and repeats. */
  lemma {:induction false} RemoveIdAppend(s: seq<string>, t: seq<string>, id: string)
    ensures RemoveId(s + t, id) == RemoveId(s, id) + RemoveId(t, id)
    decreases |s|
  {
    if s == [] {
      assert s + t == t;
    } else {
      var head := if s[0] == id then [] else [s[0]];
      calc {
        RemoveId(s + t, id);
        { assert s + t == [s[0]] + (s[1..] + t); RemoveIdCons(s[0], s[1..] + t, id); }
        head + RemoveId(s[1..] + t, id);
        { RemoveIdAppend(s[1..], t, id); }
        head + (RemoveId(s[1..], id) + RemoveId(t, id));
        (head + RemoveId(s[1..], id)) + RemoveId(t, id);
        { assert s == [s[0]] + s[1..]; RemoveIdCons(s[0], s[1..], id); }
        RemoveId(s, id) + RemoveId(t, id);
      }
    }
  }

  lemma {:induction false} RemoveIdCons(x: string, s: seq<string>, id: string)
    ensures RemoveId([x] + s, id) == (if x == id then [] else [x]) + RemoveId(s, id)
  {
    assert ([x] + s)[1..] == s;
  }


  lemma {:induction false} RemoveAppended(s: seq<string>, id: string)
    requires id !in s
    ensures RemoveId(s + [id], id) == s
    decreases |s|
  {
    if s != [] {
      assert (s + [id])[1..] == s[1..] + [id];
      RemoveAppended(s[1..], id);
      assert s == [s[0]] + s[1..];
    }
  }

  /**
   * Toggling the same id twice gives back the same selected ids; when the id was not selected
   * it gives back the very same selection, order included (a selected id comes back at the end).
   */
  lemma ToggleTwice(sel: seq<string>, id: string)
    ensures forall x :: x in ToggleSelection(ToggleSelection(sel, id), id) <==> x in sel
    ensures id !in sel ==> ToggleSelection(ToggleSelection(sel, id), id) == sel
  {
    if id !in sel {
      RemoveAppended(sel, id);
    }
  }

  // ---------------------------------------------------------------------------------------
  // The save diff
  // ---------------------------------------------------------------------------------------

  /** `rolesToAdd`: the selected ids the member does not hold, in selection order. */
  function Additions(selected: seq<string>, mine: seq<string>): (r: seq<string>)
    ensures forall x :: x in r <==> x in selected && x !in mine
    decreases |selected|
  {
    if selected == [] then []
    else
      var rest := Additions(selected[1..], mine);
      assert forall x :: x in selected <==> x == selected[0] || x in selected[1..];
      if selected[0] !in mine then [selected[0]] + rest else rest
  }

  /**
   * The filter works element by element: the additions of two runs of ids are the additions
   * of each, one after the other. With the subsequence clause, which leaves a single id only
   * `[]` or itself, this fixes the result, order and repeats included.
   */
  lemma {:induction false} AdditionsAppend(s: seq<string>, t: seq<string>, mine: seq<string>)
    ensures Additions(s + t, mine) == Additions(s, mine) + Additions(t, mine)
    decreases |s|
  {
    if s == [] {
      assert s + t == t;
    } else {
      var head := if s[0] !in mine then [s[0]] else [];
      calc {
        Additions(s + t, mine);
        { assert s + t == [s[0]] + (s[1..] + t); AdditionsCons(s[0], s[1..] + t, mine); }
        head + Additions(s[1..] + t, mine);
        { AdditionsAppend(s[1..], t, mine); }
        head + (Additions(s[1..], mine) + Additions(t, mine));
        (head + Additions(s[1..], mine)) + Additions(t, mine);
        { assert s == [s[0]] + s[1..]; AdditionsCons(s[0], s[1..], mine); }
        Additions(s, mine) + Additions(t, mine);
      }
    }
  }

  /** The additions come in selection order: a subsequence of the selection. */
  lemma {:induction false} AdditionsInOrder(selected: seq<string>, mine: seq<string>)
    ensures SubsequenceOf(Additions(selected, mine), selected)
    decreases |selected|
  {
    if selected != [] {
      var rest := Additions(selected[1..], mine);
      AdditionsInOrder(selected[1..], mine);
      if selected[0] in mine { SkipHead(rest, selected); } else { ConsHead(rest, selected); }
    }
  }

  lemma {:induction false} AdditionsCons(x: string, s: seq<string>, mine: seq<string>)
    ensures Additions([x] + s, mine) == (if x !in mine then [x] else []) + Additions(s, mine)
  {
    assert ([x] + s)[1..] == s;
  }

  /** `rolesToRemove`: the held ids that are self-assignable and no longer selected. */
  function Removals(mine: seq<string>, selfIds: seq<string>, selected: seq<string>): (r: seq<string>)
    ensures forall x :: x in r <==> x in mine && x in selfIds && x !in selected
    decreases |mine|
  {
    if mine == [] then []
    else
      var rest := Removals(mine[1..], selfIds, selected);
      assert forall x :: x in mine <==> x == mine[0] || x in mine[1..];
      if mine[0] in selfIds && mine[0] !in selected then [mine[0]] + rest else rest
  }

  /** The removals of two runs of held ids are the removals of each, one after the other. */
  lemma {:induction false} RemovalsAppend(s: seq<string>, t: seq<string>, selfIds: seq<string>, selected: seq<string>)
    ensures Removals(s + t, selfIds, selected) == Removals(s, selfIds, selected) + Removals(t, selfIds, selected)
    decreases |s|
  {
    if s == [] {
      assert s + t == t;
    } else {
      var head := if s[0] in selfIds && s[0] !in selected then [s[0]] else [];
      calc {
        Removals(s + t, selfIds, selected);
        { assert s + t == [s[0]] + (s[1..] + t); RemovalsCons(s[0], s[1..] + t, selfIds, selected); }
        head + Removals(s[1..] + t, selfIds, selected);
        { RemovalsAppend(s[1..], t, selfIds, selected); }
        head + (Removals(s[1..], selfIds, selected) + Removals(t, selfIds, selected));
        (head + Removals(s[1..], selfIds, selected)) + Removals(t, selfIds, selected);
        { assert s == [s[0]] + s[1..]; RemovalsCons(s[0], s[1..], selfIds, selected); }
        Removals(s, selfIds, selected) + Removals(t, selfIds, selected);
      }
    }
  }

  /** The removals come in the order the roles are held: a subsequence of the held ids. */
  lemma {:induction false} RemovalsInOrder(mine: seq<string>, selfIds: seq<string>, selected: seq<string>)
    ensures SubsequenceOf(Removals(mine, selfIds, selected), mine)
    decreases |mine|
  {
    if mine != [] {
      var rest := Removals(mine[1..], selfIds, selected);
      RemovalsInOrder(mine[1..], selfIds, selected);
      if mine[0] in selfIds && mine[0] !in selected { ConsHead(rest, mine); } else { SkipHead(rest, mine); }
    }
  }

  lemma {:induction false} RemovalsCons(x: string, s: seq<string>, selfIds: seq<string>, selected: seq<string>)
    ensures Removals([x] + s, selfIds, selected)
         == (if x in selfIds && x !in selected then [x] else []) + Removals(s, selfIds, selected)
  {
    assert ([x] + s)[1..] == s;
  }



  /** The `hasChanges` test of `toggleRole`. */
  predicate HasChanges(selected: seq<string>, mine: seq<string>, selfIds: seq<string>) {
    (exists id :: id in selected && id !in mine)
    || (exists id :: id in mine && id in selfIds && id !in selected)
  }

  function Elems(s: seq<string>): set<string> {
    set x | x in s
  }

  /**
   * The save diff: `hasChanges` holds exactly when there is something to add or remove; no id
   * is both added and removed; and applying both to the held roles gives the selection plus the
   * held roles that are not self-assignable.
   */
  lemma SaveDiff(selected: seq<string>, mine: seq<string>, selfIds: seq<string>)
    ensures var add, remove := Additions(selected, mine), Removals(mine, selfIds, selected);
      && (HasChanges(selected, mine, selfIds) <==> add != [] || remove != [])
      && Elems(add) * Elems(remove) == {}
      && (Elems(mine) + Elems(add)) - Elems(remove) == Elems(selected) + (Elems(mine) - Elems(selfIds))
  {
    var add, remove := Additions(selected, mine), Removals(mine, selfIds, selected);
    if add != [] { assert add[0] in add; }
    if remove != [] { assert remove[0] in remove; }
  }

  /** One awaited call of `handleSave`. */
  datatype RoleCall = Assign(roleId: string) | Unassign(roleId: string)

  /** All additions first, in order, then all removals, in order. */
  function SaveCalls(add: seq<string>, remove: seq<string>): (r: seq<RoleCall>)
    ensures |r| == |add| + |remove|
    ensures forall i :: 0 <= i < |add| ==> r[i] == Assign(add[i])
    ensures forall i :: |add| <= i < |r| ==> r[i] == Unassign(remove[i - |add|])
  {
    seq(|add|, i requires 0 <= i < |add| => Assign(add[i]))
      + seq(|remove|, i requires 0 <= i < |remove| => Unassign(remove[i]))
  }

  /** Every addition is issued before every removal. */
  lemma AdditionsBeforeRemovals(add: seq<string>, remove: seq<string>)
    ensures var calls := SaveCalls(add, remove);
      forall i, j :: 0 <= i < |calls| && 0 <= j < |calls| && calls[i].Assign? && calls[j].Unassign? ==> i < j
  {
  }

  const SaveSucceeded := "Roles updated successfully!"

  /**
   * The two `for ... of` loops of `handleSave`: each call is awaited in turn and the first one
   * that throws (number `failAt`, counted over both loops) ends the loops.
   */
  method IssueSaveCalls(add: seq<string>, remove: seq<string>, failAt: Option<nat>)
    returns (calls: seq<RoleCall>, failed: bool)
    ensures var planned := SaveCalls(add, remove);
      && (failAt.Some? && failAt.value < |planned| ==> calls == planned[..failAt.value + 1])
      && (failAt.None? || failAt.value >= |planned| ==> calls == planned)
    ensures failed <==> failAt.Some? && failAt.value < |calls|
  {
    ghost var planned := SaveCalls(add, remove);
    calls := [];
    failed := false;
    var j := 0;
    while j < |add| && !failed
      invariant j <= |add| && |calls| == j && IsPrefix(calls, planned)
      invariant !failed ==> failAt.None? || failAt.value >= j
      invariant failed ==> j >= 1 && failAt == Some(j - 1)
    {
      calls := calls + [Assign(add[j])];
      failed := failAt == Some(j);
      j := j + 1;
    }
    if !failed {
      j := 0;
      while j < |remove| && !failed
        invariant j <= |remove| && |calls| == |add| + j && IsPrefix(calls, planned)
        invariant !failed ==> failAt.None? || failAt.value >= |add| + j
        invariant failed ==> j >= 1 && failAt == Some(|add| + j - 1)
      {
        calls := calls + [Unassign(remove[j])];
        failed := failAt == Some(|add| + j);
        j := j + 1;
      }
    }
    PrefixIsSlice(calls, planned);
  }

  /** `c` agrees with `s` on every position it has. */
  ghost predicate IsPrefix<T>(c: seq<T>, s: seq<T>) {
    |c| <= |s| && forall i :: 0 <= i < |c| ==> c[i] == s[i]
  }

  lemma PrefixIsSlice<T>(c: seq<T>, s: seq<T>)
    requires IsPrefix(c, s)
    ensures c == s[..|c|]
  {
  }

  // ---------------------------------------------------------------------------------------
  // The member view
  // ---------------------------------------------------------------------------------------

  /** `rolesToAdd` of `handleSave`, from the selection and the held roles. */
  function SaveAdditions(selected: seq<string>, myRoles: seq<Role>): seq<string> {
    Additions(selected, Dedup(RoleIds(myRoles)))
  }

  /** `rolesToRemove` of `handleSave`. */
  function SaveRemovals(selected: seq<string>, myRoles: seq<Role>, selfRoles: seq<Role>): seq<string> {
    Removals(Dedup(RoleIds(myRoles)), RoleIds(selfRoles), selected)
  }

  /** The calls `handleSave` plans: the additions, then the removals. */
  function SavePlan(selected: seq<string>, myRoles: seq<Role>, selfRoles: seq<Role>): seq<RoleCall> {
    SaveCalls(SaveAdditions(selected, myRoles), SaveRemovals(selected, myRoles, selfRoles))
  }

  class MemberRoleView {
    var selfAssignableRoles: seq<Role>
    var myRoles: seq<Role>
    var categories: seq<Category>
    var selectedRoleIds: seq<string>
    var hasChanges: bool
    var loading: bool
    var saving: bool
    var error: Option<string>
    var success: Option<string>

    /** The selection is a set: no id twice. */
    ghost predicate Valid()
      reads this
    {
      NoDup(selectedRoleIds)
    }

    constructor ()
      ensures Valid()
      ensures selfAssignableRoles == [] && myRoles == [] && categories == [] && selectedRoleIds == []
      ensures !hasChanges && loading && !saving && error == None && success == None
    {
      selfAssignableRoles, myRoles, categories, selectedRoleIds := [], [], [], [];
      hasChanges, loading, saving := false, true, false;
      error, success := None, None;
    }

    /** The load effect resolved: system roles are hidden and the selection is the held role ids. */
    method Loaded(rolesData: seq<Role>, myRolesData: seq<Role>, categoriesData: seq<Category>)
      modifies this
      ensures Valid()
      ensures selfAssignableRoles == WithoutSystemRoles(rolesData)
      ensures myRoles == myRolesData && categories == categoriesData
      ensures selectedRoleIds == Dedup(RoleIds(myRolesData))
      ensures !loading
      ensures hasChanges == old(hasChanges) && saving == old(saving)
      ensures error == old(error) && success == old(success)
    {
      selfAssignableRoles := WithoutSystemRoles(rolesData);
      myRoles := myRolesData;
      categories := categoriesData;
      selectedRoleIds := Dedup(RoleIds(myRolesData));
      loading := false;
    }

    /** The load effect failed. */
    method LoadFailed(e: Option<string>)
      modifies this`error, this`loading
      ensures error == Some(OrElse(e, "Failed to load roles")) && !loading
    {
      error := Some(OrElse(e, "Failed to load roles"));
      loading := false;
    }

    /** `toggleRole`: the new selection and whether it differs from the held roles. */
    method ToggleRole(roleId: string)
      requires Valid()
      modifies this`selectedRoleIds, this`hasChanges
      ensures Valid()
      ensures selectedRoleIds == ToggleSelection(old(selectedRoleIds), roleId)
      ensures hasChanges == HasChanges(selectedRoleIds, RoleIds(myRoles), RoleIds(selfAssignableRoles))
    {
      var newSelected := ToggleSelection(selectedRoleIds, roleId);
      selectedRoleIds := newSelected;
      hasChanges := HasChanges(newSelected, RoleIds(myRoles), RoleIds(selfAssignableRoles));
    }

    /** The Save button is disabled. */
    function SaveDisabled(): bool
      reads this
    {
      !hasChanges || saving
    }

    /**
     * `handleSave`: the additions, then the removals, stopping at the call that throws
     * (`failAt`, counted over both loops); when all succeed, the refreshed roles arrive in
     * `refreshed`. The calls issued are returned.
     */
    method HandleSave(failAt: Option<nat>, failure: Option<string>, refreshed: Result<seq<Role>, Option<string>>)
      returns (calls: seq<RoleCall>)
      requires Valid()
      modifies this`saving, this`error, this`success, this`myRoles, this`hasChanges
      ensures Valid()
      ensures var planned := SavePlan(old(selectedRoleIds), old(myRoles), old(selfAssignableRoles));
        && (failAt.Some? && failAt.value < |planned| ==> calls == planned[..failAt.value + 1])
        && (failAt.None? || failAt.value >= |planned| ==> calls == planned)
      ensures !saving
      ensures failAt.Some? && failAt.value < |calls| ==>
        && error == Some(OrElse(failure, "Failed to update roles")) && success == None
        && myRoles == old(myRoles) && hasChanges == old(hasChanges)
      ensures (failAt.None? || failAt.value >= |calls|) && refreshed.Err? ==>
        && error == Some(OrElse(refreshed.error, "Failed to update roles")) && success == None
        && myRoles == old(myRoles) && hasChanges == old(hasChanges)
      ensures (failAt.None? || failAt.value >= |calls|) && refreshed.Ok? ==>
        && error == None && success == Some(SaveSucceeded)
        && myRoles == refreshed.value && !hasChanges
    {
      var failed;
      calls, failed := IssueSaveCalls(SaveAdditions(selectedRoleIds, myRoles),
                                      SaveRemovals(selectedRoleIds, myRoles, selfAssignableRoles), failAt);
      saving, error, success := true, None, None;
      SaveSettled(failed, failure, refreshed);
      saving := false;
    }

    /**
     * The end of `handleSave`: the first failed call's message, or else the refreshed roles
     * (or the refresh's error) and the success message.
     */
    method SaveSettled(failed: bool, failure: Option<string>, refreshed: Result<seq<Role>, Option<string>>)
      modifies this`error, this`success, this`myRoles, this`hasChanges
      ensures failed ==>
        && error == Some(OrElse(failure, "Failed to update roles")) && success == old(success)
        && myRoles == old(myRoles) && hasChanges == old(hasChanges)
      ensures !failed && refreshed.Err? ==>
        && error == Some(OrElse(refreshed.error, "Failed to update roles")) && success == old(success)
        && myRoles == old(myRoles) && hasChanges == old(hasChanges)
      ensures !failed && refreshed.Ok? ==>
        && error == old(error) && success == Some(SaveSucceeded)
        && myRoles == refreshed.value && !hasChanges
    {
      if failed {
        error := Some(OrElse(failure, "Failed to update roles"));
      } else if refreshed.Err? {
        error := Some(OrElse(refreshed.error, "Failed to update roles"));
      } else {
        myRoles := refreshed.value;
        hasChanges := false;
        success := Some(SaveSucceeded);
      }
    }
  }

  // ---------------------------------------------------------------------------------------
  // The admin view
  // ---------------------------------------------------------------------------------------

  /** What `createRole` and `updateRole` are sent. */
  datatype RolePayload = RolePayload(name: string, color: string, isSelfAssignable: bool, categoryId: Option<string>)

  /** What `createRoleCategory` is sent. */
  datatype CategoryPayload = CategoryPayload(name: string, description: Option<string>)

  /** `value || undefined`: an empty string is sent as absent. */
  function Optional(value: string): (r: Option<string>)
    ensures r.Some? <==> value != ""
    ensures r.Some? ==> r.value == value
  {
    if value == "" then None else Some(value)
  }

  const DefaultRoleColor := "#99aab5"

  /** `handleSelectRole` refuses the owner role unless the viewer is the owner. */
  predicate CanSelect(role: Role, isOwner: bool) {
    !(role.roleType == Owner && !isOwner)
  }

  /** A field of the open role and its new value, as the edit panel's inputs set them. */
  datatype RoleEdit = SetName(name: string) | SetColor(color: string) | SetSelfAssignable(on: bool)
                    | SetCategory(categoryId: Option<string>)

  /** `{ ...role, [field]: value }`: the edited field changes and every other one is kept. */
  function ApplyEdit(role: Role, edit: RoleEdit): (r: Role)
    ensures r.id == role.id && r.roleType == role.roleType && r.hasRole == role.hasRole
    ensures r.name == (if edit.SetName? then edit.name else role.name)
    ensures r.color == (if edit.SetColor? then edit.color else role.color)
    ensures r.isSelfAssignable == (if edit.SetSelfAssignable? then edit.on else role.isSelfAssignable)
    ensures r.categoryId == (if edit.SetCategory? then edit.categoryId else role.categoryId)
  {
    match edit
    case SetName(n) => role.(name := n)
    case SetColor(c) => role.(color := c)
    case SetSelfAssignable(b) => role.(isSelfAssignable := b)
    case SetCategory(k) => role.(categoryId := k)
  }

  /** `roles.map(r => r.id === updated.id ? updated : r)`. */
  function ReplaceById(rs: seq<Role>, updated: Role): (r: seq<Role>)
    ensures |r| == |rs|
    ensures forall i :: 0 <= i < |rs| ==> r[i] == if rs[i].id == updated.id then updated else rs[i]
  {
    seq(|rs|, i requires 0 <= i < |rs| => if rs[i].id == updated.id then updated else rs[i])
  }

  /** Saving a role keeps the list's ids in place and saving it again changes nothing. */
  lemma ReplaceByIdKeepsIds(rs: seq<Role>, updated: Role)
    ensures RoleIds(ReplaceById(rs, updated)) == RoleIds(rs)
    ensures ReplaceById(ReplaceById(rs, updated), updated) == ReplaceById(rs, updated)
  {
  }

  /** Where the checks of `handleDeleteRole` end before the confirmation dialog. */
  datatype DeleteCheck = UnknownRole | Refused(message: string) | AskToConfirm(role: Role)

  /** The owner role is never deleted; the admin role only by the owner. */
  function CheckDelete(roles: seq<Role>, roleId: string, isOwner: bool): (c: DeleteCheck)
    ensures c == UnknownRole <==> forall x :: x in roles ==> x.id != roleId
    ensures c.Refused? || c.AskToConfirm? ==> FindRole(roles, roleId).Some?
    ensures c.AskToConfirm? ==>
      && c.role.id == roleId && c.role.roleType != Owner
      && (c.role.roleType != Admin || isOwner)
    ensures c.Refused? ==>
      || FindRole(roles, roleId).value.roleType == Owner
      || (FindRole(roles, roleId).value.roleType == Admin && !isOwner)
  {
    match FindRole(roles, roleId)
    case None => UnknownRole
    case Some(role) =>
      if role.roleType == Owner then Refused("Cannot delete the owner role")
      else if role.roleType == Admin && !isOwner then Refused("Only the owner can delete the admin role")
      else AskToConfirm(role)
  }

  /** The Delete button of the edit panel. */
  predicate DeleteShown(selected: Role, isOwner: bool) {
    selected.roleType != Owner && (selected.roleType != Admin || isOwner)
  }

  /**
   * The Delete button is shown for a role exactly when `handleDeleteRole` would go on to ask
   * for confirmation for it (the role being the first in the list with its id).
   */
  lemma DeleteButtonMatchesRule(roles: seq<Role>, role: Role, isOwner: bool)
    requires FindRole(roles, role.id) == Some(role)
    ensures DeleteShown(role, isOwner) <==> CheckDelete(roles, role.id, isOwner).AskToConfirm?
  {
  }

  class AdminRoleView {
    var roles: seq<Role>
    var categories: seq<Category>
    var selectedRole: Option<Role>
    var error: Option<string>
    var newRoleName: string
    var newRoleColor: string
    var newRoleSelfAssignable: bool
    var newRoleCategory: string
    var showAddPopup: bool
    var newCategoryName: string
    var newCategoryDescription: string
    var showCategoryPopup: bool

    constructor ()
      ensures roles == [] && categories == [] && selectedRole == None && error == None
      ensures newRoleName == "" && newRoleColor == DefaultRoleColor && !newRoleSelfAssignable
      ensures newRoleCategory == "" && !showAddPopup
      ensures newCategoryName == "" && newCategoryDescription == "" && !showCategoryPopup
    {
      roles, categories, selectedRole, error := [], [], None, None;
      newRoleName, newRoleColor, newRoleSelfAssignable, newRoleCategory := "", DefaultRoleColor, false, "";
      showAddPopup := false;
      newCategoryName, newCategoryDescription, showCategoryPopup := "", "", false;
    }

    /** The load effect: both lists on success, the server's message or a fallback otherwise. */
    method Loaded(rolesData: seq<Role>, categoriesData: seq<Category>)
      modifies this`roles, this`categories
      ensures roles == rolesData && categories == categoriesData
    {
      roles, categories := rolesData, categoriesData;
    }

    method LoadFailed(e: Option<string>)
      modifies this`error
      ensures error == Some(OrElse(e, "Failed to load roles"))
    {
      error := Some(OrElse(e, "Failed to load roles"));
    }

    /** `handleSelectRole`: opens a copy of the role for editing, unless the rule refuses it. */
    method HandleSelectRole(role: Role, isOwner: bool)
      modifies this`selectedRole
      ensures selectedRole == if CanSelect(role, isOwner) then Some(role) else old(selectedRole)
    {
      if role.roleType == Owner && !isOwner {
        return;
      }
      selectedRole := Some(role);
    }

    /** `handleEditRole`: changes one field of the open role; nothing when no role is open. */
    method HandleEditRole(edit: RoleEdit)
      modifies this`selectedRole
      ensures selectedRole == if old(selectedRole).None? then None else Some(ApplyEdit(old(selectedRole).value, edit))
    {
      if selectedRole.None? {
        return;
      }
      selectedRole := Some(ApplyEdit(selectedRole.value, edit));
    }

    /**
     * `handleAddRole`: nothing at all when the trimmed name is empty; otherwise the create
     * request is sent, and on success the new role is appended and the form reset.
     */
    method HandleAddRole(outcome: Result<Role, Option<string>>) returns (request: Option<RolePayload>)
      modifies this`roles, this`error, this`newRoleName, this`newRoleColor, this`newRoleSelfAssignable
      modifies this`newRoleCategory, this`showAddPopup
      ensures AllSpace(old(newRoleName)) ==>
        && request == None && roles == old(roles) && error == old(error)
        && NewRoleForm() == old(NewRoleForm()) && showAddPopup == old(showAddPopup)
      ensures !AllSpace(old(newRoleName)) ==>
        request == Some(RolePayload(old(newRoleName), old(newRoleColor), old(newRoleSelfAssignable),
                                    Optional(old(newRoleCategory))))
      ensures !AllSpace(old(newRoleName)) && outcome.Ok? ==>
        && roles == old(roles) + [outcome.value] && error == old(error)
        && NewRoleForm() == ("", DefaultRoleColor, false, "") && !showAddPopup
      ensures !AllSpace(old(newRoleName)) && outcome.Err? ==>
        && roles == old(roles) && error == Some(OrElse(outcome.error, "Failed to create role"))
        && NewRoleForm() == old(NewRoleForm()) && showAddPopup == old(showAddPopup)
    {
      if Trim(newRoleName) == [] {
        request := None;
      } else {
        request := Some(RolePayload(newRoleName, newRoleColor, newRoleSelfAssignable, Optional(newRoleCategory)));
        RoleCreated(outcome);
      }
    }

    /** The fields of the add-role popup: name, color, self-assignable flag and category. */
    function NewRoleForm(): (string, string, bool, string)
      reads this
    {
      (newRoleName, newRoleColor, newRoleSelfAssignable, newRoleCategory)
    }

    /** What the create call's outcome does: append and reset the form, or report the error. */
    method RoleCreated(outcome: Result<Role, Option<string>>)
      modifies this`roles, this`error, this`newRoleName, this`newRoleColor, this`newRoleSelfAssignable
      modifies this`newRoleCategory, this`showAddPopup
      ensures outcome.Ok? ==>
        && roles == old(roles) + [outcome.value] && error == old(error)
        && NewRoleForm() == ("", DefaultRoleColor, false, "") && !showAddPopup
      ensures outcome.Err? ==>
        && roles == old(roles) && error == Some(OrElse(outcome.error, "Failed to create role"))
        && NewRoleForm() == old(NewRoleForm()) && showAddPopup == old(showAddPopup)
    {
      if outcome.Ok? {
        roles := roles + [outcome.value];
        newRoleName, newRoleColor, newRoleSelfAssignable, newRoleCategory := "", DefaultRoleColor, false, "";
        showAddPopup := false;
      } else {
        error := Some(OrElse(outcome.error, "Failed to create role"));
      }
    }

    /** `handleAddCategory`, which follows the same pattern as `handleAddRole`. */
    method HandleAddCategory(outcome: Result<Category, Option<string>>) returns (request: Option<CategoryPayload>)
      modifies this`categories, this`error, this`newCategoryName, this`newCategoryDescription
      modifies this`showCategoryPopup
      ensures AllSpace(old(newCategoryName)) ==>
        && request == None && categories == old(categories) && error == old(error)
        && newCategoryName == old(newCategoryName) && newCategoryDescription == old(newCategoryDescription)
        && showCategoryPopup == old(showCategoryPopup)
      ensures !AllSpace(old(newCategoryName)) ==>
        request == Some(CategoryPayload(old(newCategoryName), Optional(old(newCategoryDescription))))
      ensures !AllSpace(old(newCategoryName)) && outcome.Ok? ==>
        && categories == old(categories) + [outcome.value] && error == old(error)
        && newCategoryName == "" && newCategoryDescription == "" && !showCategoryPopup
      ensures !AllSpace(old(newCategoryName)) && outcome.Err? ==>
        && categories == old(categories) && error == Some(OrElse(outcome.error, "Failed to create category"))
        && newCategoryName == old(newCategoryName) && newCategoryDescription == old(newCategoryDescription)
        && showCategoryPopup == old(showCategoryPopup)
    {
      if Trim(newCategoryName) == [] {
        request := None;
      } else {
        request := Some(CategoryPayload(newCategoryName, Optional(newCategoryDescription)));
        CategoryCreated(outcome);
      }
    }

    /** What the create call's outcome does: append and reset the form, or report the error. */
    method CategoryCreated(outcome: Result<Category, Option<string>>)
      modifies this`categories, this`error, this`newCategoryName, this`newCategoryDescription
      modifies this`showCategoryPopup
      ensures outcome.Ok? ==>
        && categories == old(categories) + [outcome.value] && error == old(error)
        && newCategoryName == "" && newCategoryDescription == "" && !showCategoryPopup
      ensures outcome.Err? ==>
        && categories == old(categories) && error == Some(OrElse(outcome.error, "Failed to create category"))
        && newCategoryName == old(newCategoryName) && newCategoryDescription == old(newCategoryDescription)
        && showCategoryPopup == old(showCategoryPopup)
    {
      if outcome.Ok? {
        categories := categories + [outcome.value];
        newCategoryName, newCategoryDescription := "", "";
        showCategoryPopup := false;
      } else {
        error := Some(OrElse(outcome.error, "Failed to create category"));
      }
    }

    /**
     * `handleSaveRole`: without an open role nothing happens; otherwise the update is sent and
     * on success only the roles with the returned id are replaced and the panel closes.
     */
    method HandleSaveRole(outcome: Result<Role, Option<string>>) returns (request: Option<RolePayload>)
      modifies this`roles, this`selectedRole, this`error
      ensures old(selectedRole).None? ==>
        && request == None && roles == old(roles)
        && selectedRole == old(selectedRole) && error == old(error)
      ensures old(selectedRole).Some? ==> var r := old(selectedRole).value;
        request == Some(RolePayload(r.name, r.color, r.isSelfAssignable, Optional(OrElse(r.categoryId, ""))))
      ensures old(selectedRole).Some? && outcome.Ok? ==>
        roles == ReplaceById(old(roles), outcome.value) && selectedRole == None && error == old(error)
      ensures old(selectedRole).Some? && outcome.Err? ==>
        && roles == old(roles) && selectedRole == old(selectedRole)
        && error == Some(OrElse(outcome.error, "Failed to update role"))
    {
      if selectedRole.None? {
        return None;
      }
      var r := selectedRole.value;
      request := Some(RolePayload(r.name, r.color, r.isSelfAssignable, Optional(OrElse(r.categoryId, ""))));
      match outcome
      case Ok(updated) =>
        roles := ReplaceById(roles, updated);
        selectedRole := None;
      case Err(e) =>
        error := Some(OrElse(e, "Failed to update role"));
    }

    /**
     * `handleDeleteRole`: an unknown id does nothing; the owner/admin rules set their message
     * and send nothing; a declined confirmation sends nothing; otherwise the delete is sent and
     * on success exactly the roles with that id are removed and the panel closes.
     */
    method HandleDeleteRole(roleId: string, isOwner: bool, confirmed: bool, outcome: Result<(), Option<string>>)
      returns (sent: bool)
      modifies this`roles, this`selectedRole, this`error
      ensures var check := CheckDelete(old(roles), roleId, isOwner);
        sent <==> check.AskToConfirm? && confirmed
      ensures var check := CheckDelete(old(roles), roleId, isOwner);
        check.Refused? ==> error == Some(check.message) && roles == old(roles) && selectedRole == old(selectedRole)
      ensures !sent && !CheckDelete(old(roles), roleId, isOwner).Refused? ==>
        roles == old(roles) && selectedRole == old(selectedRole) && error == old(error)
      ensures sent && outcome.Ok? ==>
        roles == RemoveRole(old(roles), roleId) && selectedRole == None && error == old(error)
      ensures sent && outcome.Err? ==>
        && roles == old(roles) && selectedRole == old(selectedRole)
        && error == Some(OrElse(outcome.error, "Failed to delete role"))
    {
      var check := CheckDelete(roles, roleId, isOwner);
      match check
      case UnknownRole =>
        return false;
      case Refused(message) =>
        error := Some(message);
        return false;
      case AskToConfirm(_) =>
        if !confirmed {
          return false;
        }
        sent := true;
        match outcome
        case Ok(_) =>
          roles := RemoveRole(roles, roleId);
          selectedRole := None;
        case Err(e) =>
          error := Some(OrElse(e, "Failed to delete role"));
    }

    /**
     * `handleDeleteCategory`: an unknown id or a declined confirmation does nothing; otherwise
     * the delete is sent and on success exactly the categories with that id are removed.
     */
    method HandleDeleteCategory(categoryId: string, confirmed: bool, outcome: Result<(), Option<string>>)
      returns (sent: bool)
      modifies this`categories, this`error
      ensures sent <==> FindCategory(old(categories), categoryId).Some? && confirmed
      ensures !sent ==> categories == old(categories) && error == old(error)
      ensures sent && outcome.Ok? ==> categories == RemoveCategory(old(categories), categoryId) && error == old(error)
      ensures sent && outcome.Err? ==>
        categories == old(categories) && error == Some(OrElse(outcome.error, "Failed to delete category"))
    {
      if FindCategory(categories, categoryId).None? || !confirmed {
        return false;
      }
      sent := true;
      match outcome
      case Ok(_) =>
        categories := RemoveCategory(categories, categoryId);
      case Err(e) =>
        error := Some(OrElse(e, "Failed to delete category"));
    }
  }
}
