# User management system: verified model of the services and form controllers

This project models the core of a full-stack user and address manager. The
Spring Boot backend keeps users in `user_master` and their addresses in
`user_addresses`. Two React components edit both tables through a REST API.

- **Backend.** The two tables form one `Store.Database` object. Each table is
  a map from key to row, and an IDENTITY counter generates the keys.
  `UserService` and `AddressService` are methods over that object. Each one
  either returns its reply or fails with the exception the Java service
  throws (`Username already exists`, `User not found with id`, `Address not
  found with id`). The invariant `Database.Valid` states three things: keys
  lie below their counters, user names are unique, and every address belongs
  to a stored user. Every service method preserves it. Every failing call
  leaves the store unchanged. Every success states its whole new store.
- **The entity.** `Entity.UserMaster` is the JPA entity and its `@PrePersist`
  hook. The annotations on its fields become the predicate
  `SatisfiesConstraints`.
- **Read paths.** These are functions over the store. Each one lists exactly
  the stored rows it selects. The user replies always carry the masked
  password `******`.
- **Frontend.** `UserScreen.UserManagement` and `AddressScreen.AddressManagement`
  are the two components. Their state slots are fields, and each handler is a
  method. A handler takes two inputs:
  - the outcome of the awaited request;
  - the answer to `window.confirm`.

  It returns the request it sends, if any, and whether it triggers a refetch.

Two facts about passwords in the code:

- The required-field check in `handleSubmit` (`UserManagement.jsx` lines
  76-79) demands a password in edit mode too. Because `handleEdit` blanks the
  password, an edit cannot be submitted until a new password is typed
  (`UserScreen.EditForm`).
- `updateUser` (`UserService.java` line 76) overwrites the stored password
  unconditionally, with whatever the request carries.

## Model

| member | source | states |
|---|---|---|
| Entity.PhonePatternSuffices | Downloads/User_Management_System_FullStack/backend-springboot/src/main/java/com/example/usermanagement/entity/UserMaster.java:26-28 | a phone matching `^[0-9]{10}$` is also non-blank and fits the 15-character column |
| Entity.SatisfiesConstraints | Downloads/User_Management_System_FullStack/backend-springboot/src/main/java/com/example/usermanagement/entity/UserMaster.java:18-35 | the Bean Validation and column constraints of a row; a row meeting them has a non-empty name and password and a phone of exactly ten characters |
| Entity.UserMaster.constructor | Downloads/User_Management_System_FullStack/backend-springboot/src/main/java/com/example/usermanagement/entity/UserMaster.java:51-56 | the four given fields are set; id and registration date are unset |
| Entity.UserMaster.OnCreate | Downloads/User_Management_System_FullStack/backend-springboot/src/main/java/com/example/usermanagement/entity/UserMaster.java:40-46 | the registration date becomes the current time; status becomes "ACTIVE" only when null, a non-null status is kept; nothing else changes |
| Store.WithoutOwner | Downloads/User_Management_System_FullStack/backend-springboot/src/main/java/com/example/usermanagement/entity/UserMaster.java:37 | exactly the addresses of other owners remain, with their rows unchanged |
| Store.Database.Valid | Downloads/User_Management_System_FullStack/backend-springboot/src/main/java/com/example/usermanagement/entity/UserMaster.java:13-20 | keys lie below their IDENTITY counters, `user_name` is unique, and every address's `user_id` join column (`UserAddresses.java` lines 16-19, `nullable = false`) names a stored user; the counters are keys no row uses yet |
| Store.Database.constructor | Downloads/User_Management_System_FullStack/backend-springboot/src/main/java/com/example/usermanagement/entity/UserMaster.java:13-16 | both tables start empty and the invariant holds |
| Store.Database.PersistUser | Downloads/User_Management_System_FullStack/backend-springboot/src/main/java/com/example/usermanagement/service/UserService.java:33 | the entity runs its `@PrePersist` hook, gets the next key (one not yet used) and is stored under it; no other row changes; names stay unique |
| Store.Database.FindUser | Downloads/User_Management_System_FullStack/backend-springboot/src/main/java/com/example/usermanagement/service/UserService.java:66-67 | nothing for an unknown key, else a fresh entity holding exactly the stored row |
| Store.Database.MergeUser | Downloads/User_Management_System_FullStack/backend-springboot/src/main/java/com/example/usermanagement/service/UserService.java:75-80 | name, password, phone and status are written back; the registration date (`updatable = false`) and every other row stay |
| Store.Database.DeleteUserCascade | Downloads/User_Management_System_FullStack/backend-springboot/src/main/java/com/example/usermanagement/service/UserService.java:90 | the user row and every address it owns are removed, nothing else |
| Store.Database.InsertAddress | Downloads/User_Management_System_FullStack/backend-springboot/src/main/java/com/example/usermanagement/service/AddressService.java:35 | the row is stored under the next, unused key; the owner must exist; nothing else changes |
| Store.Database.ReplaceAddress | Downloads/User_Management_System_FullStack/backend-springboot/src/main/java/com/example/usermanagement/service/AddressService.java:69 | only the row under that key changes |
| Store.Database.DeleteAddressRow | Downloads/User_Management_System_FullStack/backend-springboot/src/main/java/com/example/usermanagement/service/AddressService.java:79 | only that address is removed |
| AddressService.AddressToDTO | Downloads/User_Management_System_FullStack/backend-springboot/src/main/java/com/example/usermanagement/service/AddressService.java:83-90 | the reply carries the address key, the owner's id as `userId`, and the stored text and type |
| AddressService.ListAddresses | Downloads/User_Management_System_FullStack/backend-springboot/src/main/java/com/example/usermanagement/service/AddressService.java:41-43 | the `stream().map(convertToDTO)` of a query result: the converted rows of the selected keys, each once, in ascending key order, each carrying its own key and owner (also lines 55-57) |
| AddressService.GetAllAddresses | Downloads/User_Management_System_FullStack/backend-springboot/src/main/java/com/example/usermanagement/service/AddressService.java:40-44 | every stored address exactly once, as stored |
| AddressService.GetAddressById | Downloads/User_Management_System_FullStack/backend-springboot/src/main/java/com/example/usermanagement/service/AddressService.java:47-51 | fails with "Address not found" exactly for an unknown id, else the stored row with its key and owner |
| AddressService.GetAddressesByUserId | Downloads/User_Management_System_FullStack/backend-springboot/src/main/java/com/example/usermanagement/service/AddressService.java:54-58 | exactly the addresses owned by the user, each once, each reporting that user |
| AddressService.CreateAddress | Downloads/User_Management_System_FullStack/backend-springboot/src/main/java/com/example/usermanagement/service/AddressService.java:26-37 | a null user id or an unknown user fails and saves nothing; otherwise exactly one address is added under the next key, owned by that user, the address counter moves past it, and the reply carries the new key and the input user id |
| AddressService.UpdateAddress | Downloads/User_Management_System_FullStack/backend-springboot/src/main/java/com/example/usermanagement/service/AddressService.java:62-71 | an unknown id fails and changes nothing; otherwise only text and type of that address change, its owner stays whatever user id the input carries, every other row stays |
| AddressService.DeleteAddress | Downloads/User_Management_System_FullStack/backend-springboot/src/main/java/com/example/usermanagement/service/AddressService.java:75-80 | an unknown id fails and changes nothing; otherwise exactly that address is removed |
| UserService.ConvertToDTO | Downloads/User_Management_System_FullStack/backend-springboot/src/main/java/com/example/usermanagement/service/UserService.java:101-118 | the reply carries the user's key and stored fields, the password masked as "******", and exactly the stored addresses that user owns |
| UserService.UsersAtListsExactly | Downloads/User_Management_System_FullStack/backend-springboot/src/main/java/com/example/usermanagement/service/UserService.java:51-53 | converting an ascending sequence of exactly the selected keys lists each selected user once, in key order |
| UserService.ListUsers | Downloads/User_Management_System_FullStack/backend-springboot/src/main/java/com/example/usermanagement/service/UserService.java:95-97 | the selected users, each once, in ascending key order, none carrying a password |
| UserService.GetAllUsers | Downloads/User_Management_System_FullStack/backend-springboot/src/main/java/com/example/usermanagement/service/UserService.java:50-54 | every stored user exactly once, password masked |
| UserService.GetUsersByStatus | Downloads/User_Management_System_FullStack/backend-springboot/src/main/java/com/example/usermanagement/service/UserService.java:94-98 | exactly the users whose status equals the given one, password masked |
| UserService.GetUserById | Downloads/User_Management_System_FullStack/backend-springboot/src/main/java/com/example/usermanagement/service/UserService.java:57-61 | fails with "User not found" exactly for an unknown id, else that user's reply |
| UserService.NewUserRow | Downloads/User_Management_System_FullStack/backend-springboot/src/main/java/com/example/usermanagement/service/UserService.java:121-128 | the stored row of a new user: a null status becomes "ACTIVE", a given one is kept; the registration date is the creation time |
| UserService.ConvertToEntity | Downloads/User_Management_System_FullStack/backend-springboot/src/main/java/com/example/usermanagement/service/UserService.java:121-128 | a fresh unsaved entity with the request's name, password and phone, and the request's status or "ACTIVE" |
| UserService.CreateUser | Downloads/User_Management_System_FullStack/backend-springboot/src/main/java/com/example/usermanagement/service/UserService.java:27-47 | a taken name fails with "Username already exists" and saves nothing; otherwise exactly one user and one address per supplied entry are added under the next keys, both counters moving past them, each address owned by the new user with the supplied text and type, and the reply lists exactly those addresses in the order supplied |
| UserService.OwnedKeysAreBlock | Downloads/User_Management_System_FullStack/backend-springboot/src/main/java/com/example/usermanagement/service/UserService.java:36-44 | after the loop stores the supplied addresses under consecutive fresh keys, the new user's keys are exactly that block |
| UserService.ListedBlock | Downloads/User_Management_System_FullStack/backend-springboot/src/main/java/com/example/usermanagement/service/UserService.java:36-46 | the reply's address list after creation is the supplied entries in order, each with its new key and owner |
| UserService.CreatedReply | Downloads/User_Management_System_FullStack/backend-springboot/src/main/java/com/example/usermanagement/service/UserService.java:46 | the created user's reply carries exactly those stored entries |
| UserService.UpdateUser | Downloads/User_Management_System_FullStack/backend-springboot/src/main/java/com/example/usermanagement/service/UserService.java:65-82 | unknown id fails with "User not found"; renaming to a name another user holds fails with "Username already exists"; keeping the name is allowed; failures change nothing; success overwrites only name, password, phone and status of that user, keeping its key, registration date, addresses and all other users |
| UserService.DeleteUser | Downloads/User_Management_System_FullStack/backend-springboot/src/main/java/com/example/usermanagement/service/UserService.java:86-91 | unknown id fails and changes nothing; otherwise exactly that user and all its addresses are removed, and it owns none afterwards |
| Client.FailureMessage | Downloads/User_Management_System_FullStack/frontend-react/src/components/UserManagement.jsx:99 | the server's non-empty message if there is one, else "Operation failed"; never empty |
| Client.IdField | Downloads/User_Management_System_FullStack/frontend-react/src/components/AddressManagement.jsx:83 | a copied id is truthy exactly when present and non-zero |
| UserScreen.Payload | Downloads/User_Management_System_FullStack/frontend-react/src/components/UserManagement.jsx:88-91 | the JSON body the backend receives carries the form's name, password, phone and status unchanged, has no id and no registration date, and its addresses are the form's |
| UserScreen.DraftCopy | Downloads/User_Management_System_FullStack/frontend-react/src/components/UserManagement.jsx:59 | the appended entry copies the draft's text and type and carries no ids |
| UserScreen.UserFormError | Downloads/User_Management_System_FullStack/frontend-react/src/components/UserManagement.jsx:75-84 | "Please fill in all required fields" exactly when name, password or phone is empty; "Phone number must be 10 digits" exactly when all are filled but the phone is not ten digits; a form that passes has a phone that meets the entity's phone constraints |
| UserScreen.EditForm | Downloads/User_Management_System_FullStack/frontend-react/src/components/UserManagement.jsx:105-111 | name, phone and status copied, password blank, addresses as given or none; such a form is always refused as missing a required field |
| UserScreen.WithoutIndex | Downloads/User_Management_System_FullStack/frontend-react/src/components/UserManagement.jsx:68 | removes exactly the entry at an in-range index, keeping the others in order; an out-of-range index keeps the list |
| UserScreen.UserManagement.constructor | Downloads/User_Management_System_FullStack/frontend-react/src/components/UserManagement.jsx:7-20 | the empty form with status "ACTIVE", the draft ("", "HOME"), nothing under edit, no messages |
| UserScreen.UserManagement.AddAddressToForm | Downloads/User_Management_System_FullStack/frontend-react/src/components/UserManagement.jsx:55-63 | a draft that trims to nothing changes nothing; otherwise exactly one copy is appended at the end and the draft is reset to ("", "HOME") |
| UserScreen.UserManagement.RemoveAddressFromForm | Downloads/User_Management_System_FullStack/frontend-react/src/components/UserManagement.jsx:65-70 | only the address list changes, to the list without that position |
| UserScreen.UserManagement.ResetForm | Downloads/User_Management_System_FullStack/frontend-react/src/components/UserManagement.jsx:128-138 | the default form, nothing under edit, no error; draft and success message stay |
| UserScreen.UserManagement.HandleSubmit | Downloads/User_Management_System_FullStack/frontend-react/src/components/UserManagement.jsx:72-101 | no request exactly when validation fails, and then only the error changes; otherwise exactly one update of the user under edit or one creation; success resets the form and refetches; failure shows the server's message and keeps the form |
| UserScreen.UserManagement.HandleEdit | Downloads/User_Management_System_FullStack/frontend-react/src/components/UserManagement.jsx:103-113 | the user goes under edit and the form becomes its edit form; nothing else changes |
| UserScreen.UserManagement.HandleDelete | Downloads/User_Management_System_FullStack/frontend-react/src/components/UserManagement.jsx:115-126 | a declined confirmation sends nothing and changes nothing; a confirmed one sends exactly one deletion, then sets the success message or "Failed to delete user" |
| UserScreen.ClientAcceptsBlankName | Downloads/User_Management_System_FullStack/frontend-react/src/components/UserManagement.jsx:76-79 | the client accepts a whitespace-only name that the entity's `@NotBlank` refuses |
| UserScreen.AcceptedFormPhoneAndStatus | Downloads/User_Management_System_FullStack/frontend-react/src/components/UserManagement.jsx:76-84 | a form the client accepts becomes a row with a phone meeting the entity's phone constraints and a non-null status |
| AddressScreen.AddressFormError | Downloads/User_Management_System_FullStack/frontend-react/src/components/AddressManagement.jsx:55-58 | refused, with "Please fill in all required fields", exactly when the owner is falsy or the text is empty |
| AddressScreen.UpdateBody | Downloads/User_Management_System_FullStack/frontend-react/src/components/AddressManagement.jsx:62-65 | the update body the backend receives carries text and type and no user id |
| AddressScreen.EditForm | Downloads/User_Management_System_FullStack/frontend-react/src/components/AddressManagement.jsx:82-86 | the address's owner, text and type are copied into the form |
| AddressScreen.GetUserName | Downloads/User_Management_System_FullStack/frontend-react/src/components/AddressManagement.jsx:113-116 | the name of the first user with that id, or "Unknown" when no user has it |
| AddressScreen.AddressManagement.constructor | Downloads/User_Management_System_FullStack/frontend-react/src/components/AddressManagement.jsx:6-15 | the empty form with type "HOME", nothing under edit, no users, no messages |
| AddressScreen.AddressManagement.ResetForm | Downloads/User_Management_System_FullStack/frontend-react/src/components/AddressManagement.jsx:103-111 | the form becomes (owner "", "", "HOME"), nothing under edit, no error |
| AddressScreen.AddressManagement.HandleSubmit | Downloads/User_Management_System_FullStack/frontend-react/src/components/AddressManagement.jsx:52-78 | no request exactly when validation fails; in edit mode one update of the edited address carrying only text and type; otherwise one creation carrying the whole form; success resets and refetches; failure shows the server's message |
| AddressScreen.AddressManagement.HandleEdit | Downloads/User_Management_System_FullStack/frontend-react/src/components/AddressManagement.jsx:80-88 | the address goes under edit and its owner, text and type fill the form |
| AddressScreen.AddressManagement.HandleDelete | Downloads/User_Management_System_FullStack/frontend-react/src/components/AddressManagement.jsx:90-101 | a declined confirmation sends nothing and changes nothing; a confirmed one sends exactly one deletion, then sets the success message or "Failed to delete address" |
| AddressScreen.WhitespaceAddressAccepted | Downloads/User_Management_System_FullStack/frontend-react/src/components/AddressManagement.jsx:55-58 | every non-empty address text that trims to nothing passes this form's check with any truthy owner, and such a text exists |

## Left out

- Bean Validation and database errors at persist time are not failure paths
  of the model. The annotations are stated as `Entity.SatisfiesConstraints`.
  Two things follow:
  - a row that breaks them (a whitespace name, a null status from
    `updateUser`) is stored;
  - the lemma `UserScreen.ClientAcceptsBlankName` shows the client can send
    such a row.
- The rows `findAll`, `findByStatus` and `findByUserMaster_UserId` return
  have no guaranteed order. The model lists them in ascending key order.
- `existsByUserName` compares names exactly. Database collation and
  case-insensitive matching are not modelled.
- Java `null` is modelled only where the code branches on it:
  - the status;
  - the address list of a new user;
  - the user id of a new address.

  The other string fields are never null in the model.
- `@Transactional` rollback is not modelled. Each service call is atomic.
- `LocalDateTime.now()` is the `now` parameter.
- The controllers (`UserController`, `AddressController`), `api.js` and the
  HTTP layer are not modelled. A handler's request is returned as a value,
  and the request's outcome is a parameter.
- AddressScreen.AddressManagement.HandleSubmit: the text user id a create
  request carries is not converted to a number as the backend's JSON reader
  would convert it.
- The React side is not modelled: `useEffect` mounting, the `loading` flag,
  the un-awaited `fetchUsers` and `fetchAddresses` and the lists they fill,
  the 3000 ms timer that clears the success message, `window.scrollTo` and
  the JSX markup.
- `handleInputChange` and `handleAddressInputChange` each write one form
  field. In the model that is a plain assignment to the field.
- `console.error` in the address component's user fetch is not modelled.
- The user service's `convertAddressToDTO` is the same conversion as the
  address service's `convertToDTO`. Both are `AddressService.AddressToDTO`.
