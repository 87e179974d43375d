/**
 * src/app/server-settings/components/ServerSettings/AddChannel.tsx: the form that creates a
 * channel. The payload is validated before anything is sent; a private channel with selected
 * roles gets a second call that grants those roles access; success resets the form.
 */
module AddChannel {
  import opened Wrappers
  import opened Text
  import opened Roles
  import opened RoleSettings

  /** `ChannelData` as the form holds it; `channelType` is the `type` field. */
  datatype ChannelData = ChannelData(name: string, channelType: string, isPrivate: bool)

  /** The form's initial value, and what a successful submit resets it to. */
  const EmptyForm := ChannelData("", "text", false)

  const MissingServer := "Missing server ID in URL."
  const EmptyName := "Channel name cannot be empty."
  const BadType := "Invalid channel type."
  const Created := " Channel created successfully!"
  const CreateFailed := " Failed to create channel."

  predicate KnownType(t: string) {
    t == "text" || t == "voice"
  }

  /**
   * `validatePayload`: the first failing check, in the order server id, non-blank name,
   * known type; nothing when all three pass.
   */
  function ValidatePayload(serverId: Option<string>, form: ChannelData): (r: Option<string>)
    ensures r.None? <==> Truthy(serverId) && Trim(form.name) != [] && KnownType(form.channelType)
    ensures !Truthy(serverId) ==> r == Some(MissingServer)
    ensures Truthy(serverId) && Trim(form.name) == [] ==> r == Some(EmptyName)
    ensures Truthy(serverId) && Trim(form.name) != [] && !KnownType(form.channelType) ==> r == Some(BadType)
  {
    if !Truthy(serverId) then Some(MissingServer)
    else if form.name == "" || |Trim(form.name)| < 1 then Some(EmptyName)
    else if !KnownType(form.channelType) then Some(BadType)
    else None
  }

  /** The input that fired `handleChange`, by its `name` attribute. */
  datatype FieldChange = NameInput(value: string) | TypeSelect(value: string) | PrivateCheckbox(checked: bool)

  /** The form after `handleChange`: only the named field takes the new value. */
  function ApplyChange(form: ChannelData, change: FieldChange): (r: ChannelData)
    ensures r.name == (if change.NameInput? then change.value else form.name)
    ensures r.channelType == (if change.TypeSelect? then change.value else form.channelType)
    ensures r.isPrivate == (if change.PrivateCheckbox? then change.checked else form.isPrivate)
  {
    match change
    case NameInput(v) => form.(name := v)
    case TypeSelect(v) => form.(channelType := v)
    case PrivateCheckbox(b) => form.(isPrivate := b)
  }

  /** How a rejected call reports itself: `err.response.data.message` and `err.message`. */
  datatype Failure = Failure(responseMessage: Option<string>, message: Option<string>)

  /** The message shown for a failure: the server's, else the error's own, else the default. */
  function FailureMessage(f: Failure): (m: string)
    ensures m != ""
    ensures Truthy(f.responseMessage) ==> m == f.responseMessage.value
    ensures !Truthy(f.responseMessage) && Truthy(f.message) ==> m == f.message.value
    ensures !Truthy(f.responseMessage) && !Truthy(f.message) ==> m == CreateFailed
  {
    FirstTruthy(f.responseMessage, f.message, CreateFailed)
  }

  /** The role-access call `setChannelRoleAccess(channelId, { isPrivate: true, roleIds })`. */
  datatype AccessRequest = AccessRequest(channelId: string, roleIds: seq<string>)

  /**
   * The role-access call a submit makes once the channel exists: only for a private channel
   * with at least one selected role whose create response carries an id.
   */
  function AccessCall(form: ChannelData, selected: seq<string>, responseId: Option<string>): (r: Option<AccessRequest>)
    ensures r.Some? <==> form.isPrivate && |selected| > 0 && Truthy(responseId)
    ensures r.Some? ==> r.value == AccessRequest(responseId.value, selected)
  {
    if form.isPrivate && |selected| > 0 && Truthy(responseId) then Some(AccessRequest(responseId.value, selected))
    else None
  }

  class ChannelForm {
    /** The `serverId` search parameter. */
    const serverId: Option<string>
    var formData: ChannelData
    var loading: bool
    var message: string
    var roles: seq<Role>
    var selectedRoleIds: seq<string>
    var loadingRoles: bool

    constructor (serverId: Option<string>)
      ensures this.serverId == serverId
      ensures formData == EmptyForm && !loading && message == "" && roles == [] && selectedRoleIds == []
      ensures !loadingRoles
    {
      this.serverId := serverId;
      formData, loading, message := EmptyForm, false, "";
      roles, selectedRoleIds, loadingRoles := [], [], false;
    }

    /** The role load effect: without a server id nothing; otherwise owners and admins are dropped. */
    method RolesLoaded(serverRoles: Result<seq<Role>, Failure>)
      modifies this`roles, this`loadingRoles
      ensures !Truthy(serverId) ==> roles == old(roles) && loadingRoles == old(loadingRoles)
      ensures Truthy(serverId) && serverRoles.Ok? ==> roles == WithoutSystemRoles(serverRoles.value)
      ensures Truthy(serverId) && serverRoles.Err? ==> roles == old(roles)
      ensures Truthy(serverId) ==> !loadingRoles
    {
      if !Truthy(serverId) {
        return;
      }
      if serverRoles.Ok? {
        roles := WithoutSystemRoles(serverRoles.value);
      }
      loadingRoles := false;
    }

    /** `handleChange`: the named field changes; unchecking "private" also clears the roles. */
    method HandleChange(change: FieldChange)
      modifies this`formData, this`selectedRoleIds
      ensures formData == ApplyChange(old(formData), change)
      ensures selectedRoleIds == if change == PrivateCheckbox(false) then [] else old(selectedRoleIds)
    {
      formData := ApplyChange(formData, change);
      if change.PrivateCheckbox? && !change.checked {
        selectedRoleIds := [];
      }
    }

    /** `handleRoleToggle`: an absent id is appended and a present one removed. */
    method HandleRoleToggle(roleId: string)
      modifies this`selectedRoleIds
      ensures selectedRoleIds == ToggleSelection(old(selectedRoleIds), roleId)
    {
      selectedRoleIds := ToggleSelection(selectedRoleIds, roleId);
    }

    /**
     * `handleSubmit`. `created` is the outcome of `createChannel` (the response's id, if it
     * has one) and `granted` that of the role-access call, used only if that call is made.
     * An invalid payload shows its message and sends nothing; a valid one goes on to `Create`.
     */
    method HandleSubmit(created: Result<Option<string>, Failure>, granted: Result<(), Failure>)
      returns (createSent: bool, access: Option<AccessRequest>)
      modifies this`loading, this`message, this`formData, this`selectedRoleIds
      ensures var invalid := ValidatePayload(serverId, old(formData));
        && (createSent <==> invalid.None?)
        && (invalid.Some? ==>
              && message == invalid.value && formData == old(formData)
              && selectedRoleIds == old(selectedRoleIds) && access == None && loading == old(loading))
      ensures createSent ==> Outcome(old(formData), old(selectedRoleIds), created, granted, access)
      ensures createSent ==> !loading
    {
      var invalid := ValidatePayload(serverId, formData);
      if invalid.Some? {
        message := invalid.value;
        return false, None;
      }
      createSent := true;
      access := Create(created, granted);
    }

    /**
     * The two calls of a valid submit: `Outcome` says which role-access call is made and how
     * form, selection and message end up.
     */
    method Create(created: Result<Option<string>, Failure>, granted: Result<(), Failure>)
      returns (access: Option<AccessRequest>)
      modifies this`loading, this`message, this`formData, this`selectedRoleIds
      ensures Outcome(old(formData), old(selectedRoleIds), created, granted, access)
      ensures !loading
    {
      loading := true;
      message := "";
      match created {
        case Err(f) =>
          message := FailureMessage(f);
          access := None;
        case Ok(responseId) =>
          access := AccessCall(formData, selectedRoleIds, responseId);
          if access.Some? && granted.Err? {
            message := FailureMessage(granted.error);
          } else {
            message := Created;
            formData := EmptyForm;
            selectedRoleIds := [];
          }
      }
      loading := false;
    }

    /**
     * After a valid submit: the role-access call is the one `AccessCall` names once the channel
     * exists. When every call made succeeds the confirmation shows and form and selection are
     * reset; when one fails its message shows and both are kept.
     */
    ghost predicate Outcome(form: ChannelData, selected: seq<string>, created: Result<Option<string>, Failure>,
                            granted: Result<(), Failure>, access: Option<AccessRequest>)
      reads this
    {
      && access == (if created.Ok? then AccessCall(form, selected, created.value) else None)
      && (created.Ok? && (access.None? || granted.Ok?) ==>
            message == Created && formData == EmptyForm && selectedRoleIds == [])
      && (created.Err? ==> message == FailureMessage(created.error) && formData == form && selectedRoleIds == selected)
      && (created.Ok? && access.Some? && granted.Err? ==>
            message == FailureMessage(granted.error) && formData == form && selectedRoleIds == selected)
    }
  }

  /**
   * After a successful submit the form is empty again, so submitting it straight away is
   * refused for its empty name and sends nothing.
   */
  lemma ResubmitAfterSuccessRefused(serverId: Option<string>)
    requires Truthy(serverId)
    ensures ValidatePayload(serverId, EmptyForm) == Some(EmptyName)
  {
  }
}
