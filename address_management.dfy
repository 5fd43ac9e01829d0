/** The `AddressManagement` React component: the address form, the handlers
    that validate, dispatch and reset, and the owner-name lookup. The network
    is an input (`Outcome`), and the request a handler sends is its result. */
module AddressScreen {
  import opened Common
  import opened Dto
  import opened Client

  const RequiredFieldsMessage := "Please fill in all required fields"
  const CreatedMessage := "Address created successfully!"
  const UpdatedMessage := "Address updated successfully!"
  const DeletedMessage := "Address deleted successfully!"
  const DeleteFailedMessage := "Failed to delete address"
  const UnknownUserName := "Unknown"
  const DefaultAddressType := "HOME"

  /** The `formData` state slot. `userId` is whatever the select produced
      (text) or what `handleEdit` copied (a number or `null`). */
  datatype AddressForm = AddressForm(userId: FieldValue, fullAddress: string, addressType: string)

  /** The body of an update request: text and type, and no `userId`. */
  datatype AddressUpdate = AddressUpdate(fullAddress: string, addressType: string)

  /** The request a handler sends through `addressAPI`, if any. */
  datatype AddressApiCall =
    | NoCall
    | CreateAddress(payload: AddressForm)
    | UpdateAddress(addressId: Option<Id>, body: AddressUpdate)
    | DeleteAddress(addressId: Option<Id>)

  const EmptyForm := AddressForm(Text(""), "", DefaultAddressType)

  /** The validation at the top of `handleSubmit`: a falsy owner or an empty
      text is refused. Nothing is trimmed, so whitespace passes. */
  function AddressFormError(form: AddressForm): (r: Option<string>)
    ensures r.Some? ==> r == Some(RequiredFieldsMessage)
    ensures r.None? <==> Truthy(form.userId) && form.fullAddress != ""
  {
    if !Truthy(form.userId) || form.fullAddress == "" then Some(RequiredFieldsMessage) else None
  }

  /** The JSON body the backend reads from an update request: no address id
      and no user id. */
  function UpdateBody(body: AddressUpdate): (dto: AddressDTO)
    ensures dto.addressId.None? && dto.userId.None?
    ensures dto.fullAddress == body.fullAddress && dto.addressType == body.addressType
  {
    AddressDTO(None, None, body.fullAddress, body.addressType)
  }

  /** The form `handleEdit` fills in from an address. */
  function EditForm(address: AddressDTO): (form: AddressForm)
    ensures form.fullAddress == address.fullAddress && form.addressType == address.addressType
    ensures address.userId.Some? ==> form.userId == Number(address.userId.value)
    ensures address.userId.None? ==> !Truthy(form.userId)
  {
    AddressForm(IdField(address.userId), address.fullAddress, address.addressType)
  }

  /** `getUserName`: the name of the first user whose id equals `userId`, or
      "Unknown" when there is none. */
  function GetUserName(users: seq<UserDTO>, userId: Option<Id>): (name: string)
    ensures (forall i :: 0 <= i < |users| ==> users[i].userId != userId) ==> name == UnknownUserName
    ensures (exists i :: 0 <= i < |users| && users[i].userId == userId) ==>
      exists i :: && 0 <= i < |users| && users[i].userId == userId && name == users[i].userName
                  && forall j :: 0 <= j < i ==> users[j].userId != userId
  {
    if users == [] then UnknownUserName
    else if users[0].userId == userId then users[0].userName
    else
      var name := GetUserName(users[1..], userId);
      assert forall i :: 1 <= i < |users| ==> users[i] == users[1..][i - 1];
      name
  }

  /** The `AddressManagement` component's form state and the user list it
      shows owner names from. */
  class AddressManagement {
    var formData: AddressForm
    var editingAddress: Option<AddressDTO>
    var users: seq<UserDTO>
    var error: Option<string>
    var success: Option<string>

    /** The initial `useState` values. */
    constructor ()
      ensures formData == EmptyForm && editingAddress.None? && users == []
      ensures error.None? && success.None?
    {
      formData := EmptyForm;
      editingAddress := None;
      users := [];
      error := None;
      success := None;
    }

    /** `resetForm`: the default form, no address under edit, no error. */
    method ResetForm()
      modifies this
      ensures formData == EmptyForm && editingAddress.None? && error.None?
      ensures users == old(users) && success == old(success)
    {
      formData := EmptyForm;
      editingAddress := None;
      error := None;
    }

    /** `handleSubmit`: a refused form only sets the error and sends nothing.
        Otherwise exactly one request goes out: in edit mode an update of the
        edited address carrying only text and type, else a creation carrying
        the whole form. On success the form is reset and the list is fetched
        again; on failure the error shows the server's message. */
    method HandleSubmit(outcome: Outcome) returns (call: AddressApiCall, refetch: bool)
      modifies this
      ensures call.NoCall? <==> AddressFormError(old(formData)).Some?
      ensures AddressFormError(old(formData)).Some? ==>
        && error == Some(RequiredFieldsMessage) && !refetch
        && formData == old(formData) && editingAddress == old(editingAddress)
        && success == old(success)
      ensures AddressFormError(old(formData)).None? && old(editingAddress).Some? ==>
        call == UpdateAddress(old(editingAddress).value.addressId,
                              AddressUpdate(old(formData).fullAddress, old(formData).addressType))
      ensures AddressFormError(old(formData)).None? && old(editingAddress).None? ==>
        call == CreateAddress(old(formData))
      ensures AddressFormError(old(formData)).None? && outcome.Succeeded? ==>
        && success == Some(if old(editingAddress).Some? then UpdatedMessage else CreatedMessage)
        && formData == EmptyForm && editingAddress.None? && error.None? && refetch
      ensures AddressFormError(old(formData)).None? && outcome.Failed? ==>
        && error == Some(FailureMessage(outcome.serverError)) && !refetch
        && formData == old(formData) && editingAddress == old(editingAddress)
        && success == old(success)
      ensures users == old(users)
    {
      var invalid := AddressFormError(formData);
      if invalid.Some? {
        error := invalid;
        return NoCall, false;
      }
      if editingAddress.Some? {
        call := UpdateAddress(editingAddress.value.addressId,
                              AddressUpdate(formData.fullAddress, formData.addressType));
      } else {
        call := CreateAddress(formData);
      }
      match outcome
      case Succeeded =>
        success := Some(if editingAddress.Some? then UpdatedMessage else CreatedMessage);
        ResetForm();
        refetch := true;
      case Failed(serverError) =>
        error := Some(FailureMessage(serverError));
        refetch := false;
    }

    /** `handleEdit`: puts `address` under edit and copies its owner, text
        and type into the form. */
    method HandleEdit(address: AddressDTO)
      modifies this
      ensures editingAddress == Some(address) && formData == EditForm(address)
      ensures users == old(users) && error == old(error) && success == old(success)
    {
      editingAddress := Some(address);
      formData := EditForm(address);
    }

    /** `handleDelete`: a declined confirmation sends nothing and changes
        nothing; a confirmed one sends exactly one deletion of `addressId`. */
    method HandleDelete(addressId: Option<Id>, confirmed: bool, outcome: Outcome) returns (call: AddressApiCall, refetch: bool)
      modifies this
      ensures !confirmed ==> call == NoCall && !refetch && unchanged(this)
      ensures confirmed ==> call == DeleteAddress(addressId)
      ensures confirmed && outcome.Succeeded? ==>
        success == Some(DeletedMessage) && error == old(error) && refetch
      ensures confirmed && outcome.Failed? ==>
        error == Some(DeleteFailedMessage) && success == old(success) && !refetch
      ensures formData == old(formData) && editingAddress == old(editingAddress) && users == old(users)
    {
      if !confirmed {
        return NoCall, false;
      }
      call := DeleteAddress(addressId);
      if outcome.Succeeded? {
        success := Some(DeletedMessage);
        refetch := true;
      } else {
        error := Some(DeleteFailedMessage);
        refetch := false;
      }
    }
  }

  /** Unlike the user form's address builder, this form does not trim: every
      non-empty address text that trims to nothing is accepted with any owner
      and any type, and such a text exists. */
  lemma WhitespaceAddressAccepted(owner: FieldValue, text: string, addressType: string)
    requires Truthy(owner) && text != "" && JsBlank(text)
    ensures AddressFormError(AddressForm(owner, text, addressType)).None?
    ensures JsBlank(" ") && " " != ""
  {
    assert JsWhitespace(' ');
  }
}
