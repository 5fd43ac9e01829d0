/** The transfer objects exchanged between the REST layer, the services and
    the React controllers (the JSON bodies of `/users` and `/addresses`). */
module Dto {
  import opened Common

  /** An address as sent and returned. A draft built in the user form carries
      neither `addressId` nor `userId`. */
  datatype AddressDTO = AddressDTO(
    addressId: Option<Id>,
    userId: Option<Id>,
    fullAddress: string,
    addressType: string)

  /** A user as sent and returned; `addresses` is null when absent. */
  datatype UserDTO = UserDTO(
    userId: Option<Id>,
    userName: string,
    userPassword: string,
    userPhoneNumber: string,
    dateOfRegistration: Option<Timestamp>,
    status: Option<string>,
    addresses: Option<seq<AddressDTO>>)

  /** The exceptions the services throw; the controllers turn their messages
      into the `error` field of a 400 or 404 reply. */
  datatype ServiceError =
    | UsernameExists         // "Username already exists"
    | UserNotFound(id: Id)   // "User not found with id: <id>"
    | AddressNotFound(id: Id) // "Address not found with id: <id>"
    | IdMustNotBeNull        // Spring Data's `findById(null)` refusal

  /** What the service replies in place of any stored password. */
  const MaskedPassword := "******"
}
