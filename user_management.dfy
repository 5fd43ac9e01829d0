/** The `UserManagement` React component: the user form, its address-draft
    builder, and the handlers that validate, dispatch and reset. The network
    is an input (`Outcome`), and the request a handler sends is its result. */
module UserScreen {
  import opened Common
  import opened Entity
  import opened Dto
  import opened UserService
  import opened Client

  const RequiredFieldsMessage := "Please fill in all required fields"
  const PhoneDigitsMessage := "Phone number must be 10 digits"
  const CreatedMessage := "User created successfully!"
  const UpdatedMessage := "User updated successfully!"
  const DeletedMessage := "User deleted successfully!"
  const DeleteFailedMessage := "Failed to delete user"
  const DefaultStatus := "ACTIVE"
  const DefaultAddressType := "HOME"

  /** The `formData` state slot. */
  datatype UserForm = UserForm(
    userName: string,
    userPassword: string,
    userPhoneNumber: string,
    status: Option<string>,
    addresses: seq<AddressDTO>)

  /** The `newAddress` state slot: the address being typed. */
  datatype DraftAddress = DraftAddress(fullAddress: string, addressType: string)

  /** The request a handler sends through `userAPI`, if any. */
  datatype UserApiCall =
    | NoCall
    | CreateUser(payload: UserForm)
    | UpdateUser(id: Option<Id>, payload: UserForm)
    | DeleteUser(id: Option<Id>)

  const EmptyForm := UserForm("", "", "", Some(DefaultStatus), [])
  const EmptyDraft := DraftAddress("", DefaultAddressType)

  /** The JSON body the backend reads from a submitted form: the form's name,
      password, phone and status unchanged, no id and no registration date,
      and the addresses as listed. */
  function Payload(form: UserForm): (dto: UserDTO)
    ensures dto.userName == form.userName && dto.userPassword == form.userPassword
    ensures dto.userPhoneNumber == form.userPhoneNumber && dto.status == form.status
    ensures dto.userId.None? && dto.dateOfRegistration.None?
    ensures Supplied(dto) == form.addresses
  {
    UserDTO(None, form.userName, form.userPassword, form.userPhoneNumber, None, form.status, Some(form.addresses))
  }

  /** `{ ...newAddress }` as an entry of the form's address list: it carries
      neither an address id nor a user id. */
  function DraftCopy(d: DraftAddress): (a: AddressDTO)
    ensures a.addressId.None? && a.userId.None?
    ensures a.fullAddress == d.fullAddress && a.addressType == d.addressType
  {
    AddressDTO(None, None, d.fullAddress, d.addressType)
  }

  /** The validation at the top of `handleSubmit`. The missing-field check
      comes first; a form that passes has a phone that also meets the
      entity's phone constraints. */
  function UserFormError(form: UserForm): (r: Option<string>)
    ensures r == Some(RequiredFieldsMessage) <==>
      form.userName == "" || form.userPassword == "" || form.userPhoneNumber == ""
    ensures r == Some(PhoneDigitsMessage) <==>
      form.userName != "" && form.userPassword != "" && form.userPhoneNumber != ""
      && !TenDigits(form.userPhoneNumber)
    ensures r.None? <==>
      form.userName != "" && form.userPassword != "" && TenDigits(form.userPhoneNumber)
    ensures r.None? ==> !JavaBlank(form.userPhoneNumber) && |form.userPhoneNumber| <= PhoneMaxLength
  {
    if form.userName == "" || form.userPassword == "" || form.userPhoneNumber == "" then
      Some(RequiredFieldsMessage)
    else if !TenDigits(form.userPhoneNumber) then
      Some(PhoneDigitsMessage)
    else
      PhonePatternSuffices(form.userPhoneNumber);
      None
  }

  /** The form `handleEdit` fills in: the user's name, phone and status, a
      blank password, and the user's addresses or none. Because the password
      is blank it never passes validation as it stands. */
  function EditForm(user: UserDTO): (form: UserForm)
    ensures form.userName == user.userName && form.userPhoneNumber == user.userPhoneNumber
    ensures form.status == user.status && form.userPassword == ""
    ensures user.addresses.Some? ==> form.addresses == user.addresses.value
    ensures user.addresses.None? ==> form.addresses == []
    ensures UserFormError(form) == Some(RequiredFieldsMessage)
  {
    UserForm(user.userName, "", user.userPhoneNumber, user.status,
             if user.addresses.Some? then user.addresses.value else [])
  }

  /** `s.filter((_, i) => i !== index)`: every entry but the one at `index`. */
  function WithoutIndex<T>(s: seq<T>, index: int): (r: seq<T>)
    ensures 0 <= index < |s| ==> r == s[..index] + s[index + 1..]
    ensures index < 0 || |s| <= index ==> r == s
    decreases |s|
  {
    if s == [] then []
    else if index == 0 then WithoutIndex(s[1..], index - 1)
    else
      var rest := WithoutIndex(s[1..], index - 1);
      assert 0 < index < |s| ==> [s[0]] + rest == s[..index] + s[index + 1..] by {
        if 0 < index < |s| {
          assert s[..index] == [s[0]] + s[1..][..index - 1];
          assert s[index + 1..] == s[1..][index..];
        }
      }
      assert index < 0 || |s| <= index ==> [s[0]] + rest == s;
      [s[0]] + rest
  }

  /** The `UserManagement` component's form state. */
  class UserManagement {
    var formData: UserForm
    var newAddress: DraftAddress
    var editingUser: Option<UserDTO>
    var error: Option<string>
    var success: Option<string>

    /** The initial `useState` values. */
    constructor ()
      ensures formData == EmptyForm && newAddress == EmptyDraft
      ensures editingUser.None? && error.None? && success.None?
    {
      formData := EmptyForm;
      newAddress := EmptyDraft;
      editingUser := None;
      error := None;
      success := None;
    }

    /** `addAddressToForm`: a draft whose text trims to nothing changes
        nothing; otherwise one copy of the draft is appended and the draft
        is cleared. */
    method AddAddressToForm()
      modifies this
      ensures JsBlank(old(newAddress.fullAddress)) ==>
        formData == old(formData) && newAddress == old(newAddress)
      ensures !JsBlank(old(newAddress.fullAddress)) ==>
        && formData == old(formData).(addresses := old(formData.addresses) + [DraftCopy(old(newAddress))])
        && newAddress == EmptyDraft
      ensures editingUser == old(editingUser) && error == old(error) && success == old(success)
    {
      if !JsBlank(newAddress.fullAddress) {
        formData := formData.(addresses := formData.addresses + [DraftCopy(newAddress)]);
        newAddress := EmptyDraft;
      }
    }

    /** `removeAddressFromForm`: drops the entry at `index` and keeps the
        others in order; an index outside the list changes nothing. */
    method RemoveAddressFromForm(index: int)
      modifies this
      ensures formData == old(formData).(addresses := WithoutIndex(old(formData.addresses), index))
      ensures newAddress == old(newAddress) && editingUser == old(editingUser)
      ensures error == old(error) && success == old(success)
    {
      formData := formData.(addresses := WithoutIndex(formData.addresses, index));
    }

    /** `resetForm`: the default form, no user under edit, no error. */
    method ResetForm()
      modifies this
      ensures formData == EmptyForm && editingUser.None? && error.None?
      ensures newAddress == old(newAddress) && success == old(success)
    {
      formData := EmptyForm;
      editingUser := None;
      error := None;
    }

    /** `handleSubmit`: a form that fails validation only sets the error and
        sends nothing. A valid form is sent exactly once, as an update of the
        user under edit or as a creation. On success the form is reset and
        the list is fetched again; on failure the error shows the server's
        message and the form is kept. */
    method HandleSubmit(outcome: Outcome) returns (call: UserApiCall, refetch: bool)
      modifies this
      ensures call.NoCall? <==> UserFormError(old(formData)).Some?
      ensures UserFormError(old(formData)).Some? ==>
        && error == UserFormError(old(formData)) && !refetch
        && formData == old(formData) && newAddress == old(newAddress)
        && editingUser == old(editingUser) && success == old(success)
      ensures UserFormError(old(formData)).None? && old(editingUser).Some? ==>
        call == UpdateUser(old(editingUser).value.userId, old(formData))
      ensures UserFormError(old(formData)).None? && old(editingUser).None? ==>
        call == CreateUser(old(formData))
      ensures UserFormError(old(formData)).None? && outcome.Succeeded? ==>
        && success == Some(if old(editingUser).Some? then UpdatedMessage else CreatedMessage)
        && formData == EmptyForm && editingUser.None? && error.None?
        && newAddress == old(newAddress) && refetch
      ensures UserFormError(old(formData)).None? && outcome.Failed? ==>
        && error == Some(FailureMessage(outcome.serverError)) && !refetch
        && formData == old(formData) && newAddress == old(newAddress)
        && editingUser == old(editingUser) && success == old(success)
    {
      var invalid := UserFormError(formData);
      if invalid.Some? {
        error := invalid;
        return NoCall, false;
      }
      if editingUser.Some? {
        call := UpdateUser(editingUser.value.userId, formData);
      } else {
        call := CreateUser(formData);
      }
      match outcome
      case Succeeded =>
        success := Some(if editingUser.Some? then UpdatedMessage else CreatedMessage);
        ResetForm();
        refetch := true;
      case Failed(serverError) =>
        error := Some(FailureMessage(serverError));
        refetch := false;
    }

    /** `handleEdit`: puts `user` under edit and fills the form from it. */
    method HandleEdit(user: UserDTO)
      modifies this
      ensures editingUser == Some(user) && formData == EditForm(user)
      ensures newAddress == old(newAddress) && error == old(error) && success == old(success)
    {
      editingUser := Some(user);
      formData := EditForm(user);
    }

    /** `handleDelete`: a declined confirmation sends nothing and changes
        nothing; a confirmed one sends exactly one deletion of `userId`. */
    method HandleDelete(userId: Option<Id>, confirmed: bool, outcome: Outcome) returns (call: UserApiCall, refetch: bool)
      modifies this
      ensures !confirmed ==> call == NoCall && !refetch && unchanged(this)
      ensures confirmed ==> call == DeleteUser(userId)
      ensures confirmed && outcome.Succeeded? ==>
        success == Some(DeletedMessage) && error == old(error) && refetch
      ensures confirmed && outcome.Failed? ==>
        error == Some(DeleteFailedMessage) && success == old(success) && !refetch
      ensures formData == old(formData) && newAddress == old(newAddress) && editingUser == old(editingUser)
    {
      if !confirmed {
        return NoCall, false;
      }
      call := DeleteUser(userId);
      if outcome.Succeeded? {
        success := Some(DeletedMessage);
        refetch := true;
      } else {
        error := Some(DeleteFailedMessage);
        refetch := false;
      }
    }
  }

  /** A form the client accepts is not necessarily one the entity accepts:
      the client only asks for non-empty fields, while `@NotBlank` also
      refuses whitespace. */
  lemma ClientAcceptsBlankName()
    ensures var form := UserForm(" ", "secret", "0123456789", None, []);
      UserFormError(form).None? && !SatisfiesConstraints(NewUserRow(Payload(form), 0))
  {
    var form := UserForm(" ", "secret", "0123456789", None, []);
    assert TenDigits(form.userPhoneNumber);
    assert JavaBlank(form.userName);
  }

  /** Every form the client accepts yields a stored row with a non-empty
      name and password, a phone that meets the entity's phone constraints,
      and a non-null status. */
  lemma AcceptedFormPhoneAndStatus(form: UserForm, now: Timestamp)
    requires UserFormError(form).None?
    ensures var row := NewUserRow(Payload(form), now);
      && TenDigits(row.userPhoneNumber) && !JavaBlank(row.userPhoneNumber)
      && |row.userPhoneNumber| <= PhoneMaxLength && row.status.Some?
      && row.userName != "" && row.userPassword != ""
  {
  }
}
