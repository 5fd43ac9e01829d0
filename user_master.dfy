/** The persistent entities: the `user_master` and `user_addresses` rows, the
    constraints their annotations declare, and the `UserMaster` entity object
    with its `@PrePersist` hook. */
module Entity {
  import opened Common

  const ActiveStatus := "ACTIVE"
  const UserNameMaxLength := 100
  const PhoneMaxLength := 15
  const StatusMaxLength := 20

  /** One stored row of `user_master` (its key is the map key of the table). */
  datatype UserRow = UserRow(
    userName: string,
    userPassword: string,
    userPhoneNumber: string,
    dateOfRegistration: Timestamp,
    status: Option<string>)

  /** One stored row of `user_addresses`; `owner` is the `user_id` join column. */
  datatype AddressRow = AddressRow(owner: Id, fullAddress: string, addressType: string)

  /** The column and Bean Validation constraints declared on `UserMaster`:
      non-blank name of at most 100 characters, non-blank password, non-blank
      phone matching `^[0-9]{10}$` within a 15-character column, and a non-null
      status within a 20-character column. */
  predicate SatisfiesConstraints(u: UserRow)
    ensures SatisfiesConstraints(u) ==>
      |u.userPhoneNumber| == 10 && u.userName != "" && u.userPassword != ""
  {
    && !JavaBlank(u.userName) && |u.userName| <= UserNameMaxLength
    && !JavaBlank(u.userPassword)
    && !JavaBlank(u.userPhoneNumber) && TenDigits(u.userPhoneNumber)
    && |u.userPhoneNumber| <= PhoneMaxLength
    && u.status.Some? && |u.status.value| <= StatusMaxLength
  }

  /** `existsByUserName`: some stored user already has this name. */
  predicate NameTaken(users: map<Id, UserRow>, name: string)
  {
    exists id :: id in users && users[id].userName == name
  }

  /** The `unique = true` constraint on `user_name`. */
  ghost predicate UniqueNames(users: map<Id, UserRow>)
  {
    forall a, b :: a in users && b in users && users[a].userName == users[b].userName ==> a == b
  }

  /** The `user_id` foreign key: every address belongs to a stored user. */
  ghost predicate OwnersExist(users: map<Id, UserRow>, addresses: map<Id, AddressRow>)
  {
    forall a :: a in addresses ==> addresses[a].owner in users
  }

  /** The phone pattern alone already implies the other phone constraints. */
  lemma PhonePatternSuffices(phone: string)
    requires TenDigits(phone)
    ensures !JavaBlank(phone) && |phone| <= PhoneMaxLength
  {
    assert phone[0] > ' ';
  }

  /** The `UserMaster` JPA entity while it is being created or updated. */
  class UserMaster {
    var userId: Option<Id>
    var userName: string
    var userPassword: string
    var userPhoneNumber: string
    var dateOfRegistration: Option<Timestamp>
    var status: Option<string>

    /** The four-argument constructor; id and registration date are unset. */
    constructor (userName: string, userPassword: string, userPhoneNumber: string, status: Option<string>)
      ensures this.userName == userName && this.userPassword == userPassword
      ensures this.userPhoneNumber == userPhoneNumber && this.status == status
      ensures userId.None? && dateOfRegistration.None?
    {
      this.userId := None;
      this.userName := userName;
      this.userPassword := userPassword;
      this.userPhoneNumber := userPhoneNumber;
      this.dateOfRegistration := None;
      this.status := status;
    }

    /** `@PrePersist`: stamps the registration date, and defaults a null status
        to "ACTIVE" while keeping a non-null one. */
    method OnCreate(now: Timestamp)
      modifies this
      ensures dateOfRegistration == Some(now)
      ensures status == if old(status).None? then Some(ActiveStatus) else old(status)
      ensures userId == old(userId) && userName == old(userName)
      ensures userPassword == old(userPassword) && userPhoneNumber == old(userPhoneNumber)
    {
      dateOfRegistration := Some(now);
      if status.None? {
        status := Some(ActiveStatus);
      }
    }

    /** The row this entity is written as, once it has a registration date. */
    function Row(): (r: UserRow)
      reads this
      requires dateOfRegistration.Some?
    {
      UserRow(userName, userPassword, userPhoneNumber, dateOfRegistration.value, status)
    }
  }
}
