/** The two tables behind `UserMasterRepository` and `UserAddressesRepository`,
    with the repository operations the services use. Keys come from IDENTITY
    columns, modelled as counters that only grow. */
module Store {
  import opened Common
  import opened Entity

  /** The addresses that remain once every address of `owner` is removed. */
  function WithoutOwner(addresses: map<Id, AddressRow>, owner: Id): (r: map<Id, AddressRow>)
    ensures forall a :: a in r <==> a in addresses && addresses[a].owner != owner
    ensures forall a :: a in r ==> r[a] == addresses[a]
  {
    map a | a in addresses && addresses[a].owner != owner :: addresses[a]
  }

  class Database {
    var users: map<Id, UserRow>
    var addresses: map<Id, AddressRow>
    var nextUserId: Id
    var nextAddressId: Id

    /** Keys are below their counters, user names are unique and every
        address has an existing owner. The counters are then keys no row
        uses yet. */
    ghost predicate Valid()
      reads this
      ensures Valid() ==> nextUserId !in users && nextAddressId !in addresses
    {
      && 1 <= nextUserId && 1 <= nextAddressId
      && (forall id :: id in users ==> 1 <= id < nextUserId)
      && (forall id :: id in addresses ==> 1 <= id < nextAddressId)
      && UniqueNames(users)
      && OwnersExist(users, addresses)
    }

    constructor ()
      ensures Valid()
      ensures users == map[] && addresses == map[]
    {
      users := map[];
      addresses := map[];
      nextUserId := 1;
      nextAddressId := 1;
    }

    /** `save` of a new `UserMaster`: runs its `@PrePersist` hook, inserts the
        row under the next generated key and writes that key into the entity. */
    method PersistUser(user: UserMaster, now: Timestamp) returns (id: Id)
      requires Valid() && !NameTaken(users, user.userName)
      modifies this, user
      ensures Valid() && id !in old(users)
      ensures id == old(nextUserId) && nextUserId == old(nextUserId) + 1
      ensures user.userId == Some(id) && user.dateOfRegistration == Some(now)
      ensures user.status == if old(user.status).None? then Some(ActiveStatus) else old(user.status)
      ensures user.userName == old(user.userName) && user.userPassword == old(user.userPassword)
      ensures user.userPhoneNumber == old(user.userPhoneNumber)
      ensures users == old(users)[id := user.Row()]
      ensures addresses == old(addresses) && nextAddressId == old(nextAddressId)
    {
      user.OnCreate(now);
      id := nextUserId;
      users := users[id := user.Row()];
      nextUserId := nextUserId + 1;
      user.userId := Some(id);
    }

    /** `findById`: a fresh entity loaded from the row, or nothing. */
    method FindUser(id: Id) returns (found: Option<UserMaster>)
      ensures found.None? <==> id !in users
      ensures found.Some? ==>
        && fresh(found.value)
        && found.value.userId == Some(id)
        && found.value.dateOfRegistration == Some(users[id].dateOfRegistration)
        && found.value.Row() == users[id]
    {
      if id in users {
        var row := users[id];
        var user := new UserMaster(row.userName, row.userPassword, row.userPhoneNumber, row.status);
        user.userId := Some(id);
        user.dateOfRegistration := Some(row.dateOfRegistration);
        found := Some(user);
      } else {
        found := None;
      }
    }

    /** `save` of a loaded `UserMaster`: writes back name, password, phone and
        status; `date_of_registration` is `updatable = false` and keeps its
        stored value whatever the entity holds. */
    method MergeUser(user: UserMaster)
      requires Valid()
      requires user.userId.Some? && user.userId.value in users
      requires user.userName == users[user.userId.value].userName || !NameTaken(users, user.userName)
      modifies this
      ensures Valid()
      ensures users == old(users)[user.userId.value := old(users)[user.userId.value].(
        userName := user.userName, userPassword := user.userPassword,
        userPhoneNumber := user.userPhoneNumber, status := user.status)]
      ensures addresses == old(addresses)
      ensures nextUserId == old(nextUserId) && nextAddressId == old(nextAddressId)
    {
      var id := user.userId.value;
      users := users[id := users[id].(userName := user.userName, userPassword := user.userPassword,
        userPhoneNumber := user.userPhoneNumber, status := user.status)];
    }

    /** `deleteById` on a user: `cascade = ALL` with `orphanRemoval` removes
        the user's addresses with it. */
    method DeleteUserCascade(id: Id)
      requires Valid()
      modifies this
      ensures Valid()
      ensures users == old(users) - {id}
      ensures addresses == WithoutOwner(old(addresses), id)
      ensures nextUserId == old(nextUserId) && nextAddressId == old(nextAddressId)
    {
      users := users - {id};
      addresses := WithoutOwner(addresses, id);
    }

    /** `save` of a new address row under the next generated key. */
    method InsertAddress(row: AddressRow) returns (id: Id)
      requires Valid() && row.owner in users
      modifies this
      ensures Valid() && id !in old(addresses)
      ensures id == old(nextAddressId) && nextAddressId == old(nextAddressId) + 1
      ensures addresses == old(addresses)[id := row]
      ensures users == old(users) && nextUserId == old(nextUserId)
    {
      id := nextAddressId;
      addresses := addresses[id := row];
      nextAddressId := nextAddressId + 1;
    }

    /** `save` of a loaded address row. */
    method ReplaceAddress(id: Id, row: AddressRow)
      requires Valid() && id in addresses && row.owner in users
      modifies this
      ensures Valid()
      ensures addresses == old(addresses)[id := row]
      ensures users == old(users)
      ensures nextUserId == old(nextUserId) && nextAddressId == old(nextAddressId)
    {
      addresses := addresses[id := row];
    }

    /** `deleteById` on an address. */
    method DeleteAddressRow(id: Id)
      requires Valid()
      modifies this
      ensures Valid()
      ensures addresses == old(addresses) - {id}
      ensures users == old(users)
      ensures nextUserId == old(nextUserId) && nextAddressId == old(nextAddressId)
    {
      addresses := addresses - {id};
    }
  }
}
