/** `UserService`: create, read, update and delete of `user_master` rows, with
    the addresses a new user brings along and the cascade on delete. */
module UserService {
  import opened Common
  import opened Entity
  import opened Dto
  import opened Keys
  import opened Store
  import opened AddressService

  /** `convertToDTO`: the stored user under `id` as the service returns it.
      The password is always masked, and the addresses are exactly the stored
      addresses owned by that user. */
  function ConvertToDTO(db: Database, id: Id): (dto: UserDTO)
    reads db
    requires db.Valid() && id in db.users
    ensures dto.userId == Some(id)
    ensures dto.userPassword == MaskedPassword
    ensures dto.userName == db.users[id].userName
    ensures dto.userPhoneNumber == db.users[id].userPhoneNumber
    ensures dto.dateOfRegistration == Some(db.users[id].dateOfRegistration)
    ensures dto.status == db.users[id].status
    ensures dto.addresses.Some?
    ensures ListsExactly(dto.addresses.value, db.addresses, OwnedBy(db.addresses, id))
  {
    var row := db.users[id];
    UserDTO(Some(id), row.userName, MaskedPassword, row.userPhoneNumber,
            Some(row.dateOfRegistration), row.status, Some(GetAddressesByUserId(db, id)))
  }

  /** Every entry of `r` is the converted stored user under its own id, and
      that id is one of `keys`. */
  ghost predicate StoredUsersOf(r: seq<UserDTO>, db: Database, keys: set<Id>)
    reads db
    requires db.Valid()
  {
    forall i :: 0 <= i < |r| ==>
      && r[i].userId.Some? && r[i].userId.value in keys
      && r[i].userId.value in db.users
      && r[i] == ConvertToDTO(db, r[i].userId.value)
  }

  /** The ids of `r` strictly ascend. */
  ghost predicate AscendingUserIds(r: seq<UserDTO>)
  {
    forall i, j :: 0 <= i < j < |r| ==>
      r[i].userId.Some? && r[j].userId.Some? && r[i].userId.value < r[j].userId.value
  }

  /** Every user of `keys` appears in `r`. */
  ghost predicate CoversUsers(r: seq<UserDTO>, keys: set<Id>)
  {
    forall u :: u in keys ==> exists i :: 0 <= i < |r| && r[i].userId == Some(u)
  }

  /** `r` lists exactly the stored users of `keys`, each once, by ascending id. */
  ghost predicate ListsExactlyUsers(r: seq<UserDTO>, db: Database, keys: set<Id>)
    reads db
    requires db.Valid()
  {
    StoredUsersOf(r, db, keys) && AscendingUserIds(r) && CoversUsers(r, keys)
  }

  /** The users of `keys`, converted, in ascending key order. */
  function ListUsers(db: Database, keys: set<Id>): (r: seq<UserDTO>)
    reads db
    requires db.Valid()
    requires keys <= db.users.Keys
    ensures ListsExactlyUsers(r, db, keys)
    ensures forall i :: 0 <= i < |r| ==> r[i].userPassword == MaskedPassword
  {
    var ids := KeysBelow(keys, db.nextUserId);
    UsersAtListsExactly(db, ids, keys);
    UsersAt(db, ids)
  }

  /** The users under `ids`, converted, in the order of `ids`. */
  function UsersAt(db: Database, ids: seq<Id>): (r: seq<UserDTO>)
    reads db
    requires db.Valid()
    requires forall i :: 0 <= i < |ids| ==> ids[i] in db.users
    ensures |r| == |ids|
    ensures forall i :: 0 <= i < |ids| ==> r[i] == ConvertToDTO(db, ids[i])
  {
    seq(|ids|, i requires 0 <= i < |ids| && db.Valid() && ids[i] in db.users reads db =>
      ConvertToDTO(db, ids[i]))
  }

  /** Converting the users under an ascending sequence of exactly the keys
      `keys` lists exactly those users. */
  lemma UsersAtListsExactly(db: Database, ids: seq<Id>, keys: set<Id>)
    requires db.Valid()
    requires Increasing(ids)
    requires forall x :: x in ids <==> x in keys
    requires keys <= db.users.Keys
    ensures forall i :: 0 <= i < |ids| ==> ids[i] in db.users
    ensures ListsExactlyUsers(UsersAt(db, ids), db, keys)
  {
    assert forall i :: 0 <= i < |ids| ==> ids[i] in ids;
    var r := UsersAt(db, ids);
    forall i | 0 <= i < |r|
      ensures r[i].userId == Some(ids[i])
      ensures && r[i].userId.Some? && r[i].userId.value in keys
              && r[i].userId.value in db.users
              && r[i] == ConvertToDTO(db, r[i].userId.value)
    {
      assert ids[i] in ids;
      assert r[i] == ConvertToDTO(db, ids[i]);
    }
    assert StoredUsersOf(r, db, keys);
    forall i, j | 0 <= i < j < |r|
      ensures r[i].userId.Some? && r[j].userId.Some? && r[i].userId.value < r[j].userId.value
    {
    }
    assert AscendingUserIds(r);
    forall u | u in keys
      ensures exists i :: 0 <= i < |r| && r[i].userId == Some(u)
    {
      var i := IndexOf(ids, u);
      assert r[i].userId == Some(u);
    }
    assert CoversUsers(r, keys);
  }

  /** `getAllUsers`: every stored user once, none carrying a password. */
  function GetAllUsers(db: Database): (r: seq<UserDTO>)
    reads db
    requires db.Valid()
    ensures ListsExactlyUsers(r, db, db.users.Keys)
    ensures forall i :: 0 <= i < |r| ==> r[i].userPassword == MaskedPassword
  {
    ListUsers(db, db.users.Keys)
  }

  /** `getUsersByStatus`: exactly the users whose status equals `status`. */
  function GetUsersByStatus(db: Database, status: string): (r: seq<UserDTO>)
    reads db
    requires db.Valid()
    ensures ListsExactlyUsers(r, db, set u | u in db.users && db.users[u].status == Some(status))
    ensures forall i :: 0 <= i < |r| ==> r[i].status == Some(status)
    ensures forall i :: 0 <= i < |r| ==> r[i].userPassword == MaskedPassword
  {
    ListUsers(db, set u | u in db.users && db.users[u].status == Some(status))
  }

  /** `getUserById`: fails with "User not found" for an unknown id. */
  function GetUserById(db: Database, id: Id): (r: Result<UserDTO, ServiceError>)
    reads db
    requires db.Valid()
    ensures r.Failure? <==> id !in db.users
    ensures r.Failure? ==> r.error == UserNotFound(id)
    ensures r.Success? ==> r.value.userId == Some(id) && r.value.userPassword == MaskedPassword
    ensures r.Success? ==> r.value == ConvertToDTO(db, id)
  {
    if id in db.users then Success(ConvertToDTO(db, id)) else Failure(UserNotFound(id))
  }

  /** The row a new user is stored as: `convertToEntity` followed by the
      `@PrePersist` hook. A null status becomes "ACTIVE", a given one is kept. */
  function NewUserRow(dto: UserDTO, now: Timestamp): (row: UserRow)
    ensures row.status.Some?
    ensures dto.status.Some? ==> row.status == dto.status
    ensures dto.status.None? ==> row.status == Some(ActiveStatus)
    ensures row.dateOfRegistration == now
    ensures row.userName == dto.userName && row.userPassword == dto.userPassword
    ensures row.userPhoneNumber == dto.userPhoneNumber
  {
    UserRow(dto.userName, dto.userPassword, dto.userPhoneNumber, now,
            Some(if dto.status.Some? then dto.status.value else ActiveStatus))
  }

  /** `convertToEntity`: a fresh, unsaved entity built from the request. */
  method ConvertToEntity(dto: UserDTO) returns (user: UserMaster)
    ensures fresh(user)
    ensures user.userId.None? && user.dateOfRegistration.None?
    ensures user.userName == dto.userName && user.userPassword == dto.userPassword
    ensures user.userPhoneNumber == dto.userPhoneNumber
    ensures user.status == Some(if dto.status.Some? then dto.status.value else ActiveStatus)
  {
    var status := if dto.status.Some? then dto.status.value else ActiveStatus;
    user := new UserMaster(dto.userName, dto.userPassword, dto.userPhoneNumber, Some(status));
  }

  /** The addresses a create request carries; null means none. */
  function Supplied(dto: UserDTO): seq<AddressDTO>
  {
    if dto.addresses.Some? then dto.addresses.value else []
  }

  /** `createUser`: a taken name fails with "Username already exists" and
      saves nothing. Otherwise exactly one user is added, plus one address per
      supplied entry, each owned by the new user and carrying the supplied
      text and type; the reply lists exactly those addresses, in order. */
  method CreateUser(db: Database, dto: UserDTO, now: Timestamp) returns (r: Result<UserDTO, ServiceError>)
    requires db.Valid()
    modifies db
    ensures db.Valid()
    ensures r.Failure? <==> NameTaken(old(db.users), dto.userName)
    ensures r.Failure? ==> r.error == UsernameExists && unchanged(db)
    ensures r.Success? ==>
      var id := old(db.nextUserId);
      var base := old(db.nextAddressId);
      var supplied := Supplied(dto);
      && id !in old(db.users) && db.nextUserId == id + 1
      && db.users == old(db.users)[id := NewUserRow(dto, now)]
      && db.nextAddressId == base + |supplied|
      && (forall a :: a in db.addresses <==> a in old(db.addresses) || base <= a < base + |supplied|)
      && (forall a :: a in old(db.addresses) ==> db.addresses[a] == old(db.addresses)[a])
      && (forall i :: 0 <= i < |supplied| ==>
            db.addresses[base + i] == AddressRow(id, supplied[i].fullAddress, supplied[i].addressType))
      && r.value == ConvertToDTO(db, id)
      && r.value.addresses == Some(StoredReplies(base, id, supplied))
  {
    if NameTaken(db.users, dto.userName) {
      return Failure(UsernameExists);
    }
    var user := ConvertToEntity(dto);
    var id := db.PersistUser(user, now);
    assert db.users == old(db.users)[id := NewUserRow(dto, now)];

    var supplied := Supplied(dto);
    ghost var base := db.nextAddressId;
    var k := 0;
    while k < |supplied|
      invariant 0 <= k <= |supplied|
      invariant db.users == old(db.users)[id := NewUserRow(dto, now)]
      invariant db.nextUserId == id + 1 && id == old(db.nextUserId)
      invariant db.nextAddressId == base + k
      invariant forall a :: a in db.addresses <==> a in old(db.addresses) || base <= a < base + k
      invariant forall a :: a in old(db.addresses) ==> db.addresses[a] == old(db.addresses)[a]
      invariant forall i :: 0 <= i < k ==>
        db.addresses[base + i] == AddressRow(id, supplied[i].fullAddress, supplied[i].addressType)
      invariant db.Valid()
    {
      var row := AddressRow(id, supplied[k].fullAddress, supplied[k].addressType);
      var aid := db.InsertAddress(row);
      k := k + 1;
    }
    assert StoredAsBlock(db.addresses, id, base, supplied);
    CreatedReply(db, id, base, supplied);
    var reply := ConvertToDTO(db, id);
    r := Success(reply);
  }

  /** The reply of `createUser` lists the supplied addresses as stored. */
  lemma CreatedReply(db: Database, id: Id, base: Id, supplied: seq<AddressDTO>)
    requires db.Valid() && id in db.users && 0 <= base
    requires db.nextAddressId == base + |supplied|
    requires forall a :: a in db.addresses && db.addresses[a].owner == id ==> base <= a
    requires StoredAsBlock(db.addresses, id, base, supplied)
    ensures ConvertToDTO(db, id).addresses == Some(StoredReplies(base, id, supplied))
  {
    ListedBlock(db.addresses, id, base, supplied);
  }

  /** The replies for `supplied` once stored under the keys `base, base + 1,
      ...` and owned by `owner`. */
  function StoredReplies(base: Id, owner: Id, supplied: seq<AddressDTO>): (r: seq<AddressDTO>)
    ensures |r| == |supplied|
    ensures forall i :: 0 <= i < |supplied| ==>
      r[i] == AddressDTO(Some(base + i), Some(owner), supplied[i].fullAddress, supplied[i].addressType)
  {
    seq(|supplied|, i requires 0 <= i < |supplied| =>
      AddressDTO(Some(base + i), Some(owner), supplied[i].fullAddress, supplied[i].addressType))
  }

  /** Entry `i` of `supplied` is stored under the key `base + i`, owned by
      `owner`. */
  ghost predicate StoredAsBlock(addresses: map<Id, AddressRow>, owner: Id, base: Id, supplied: seq<AddressDTO>)
  {
    forall i :: 0 <= i < |supplied| ==>
      base + i in addresses && addresses[base + i] == AddressRow(owner, supplied[i].fullAddress, supplied[i].addressType)
  }

  /** Once `supplied` is stored under a block of fresh keys for an owner that
      had no addresses before, the owner's keys are exactly that block. */
  lemma OwnedKeysAreBlock(addresses: map<Id, AddressRow>, owner: Id, base: Id, supplied: seq<AddressDTO>)
    requires 0 <= base
    requires forall a :: a in addresses && addresses[a].owner == owner ==> base <= a < base + |supplied|
    requires StoredAsBlock(addresses, owner, base, supplied)
    ensures KeysBelow(OwnedBy(addresses, owner), base + |supplied|) == seq(|supplied|, i requires 0 <= i < |supplied| => base + i)
  {
    var n := |supplied|;
    var owned := OwnedBy(addresses, owner);
    forall x
      ensures x in owned <==> base <= x < base + n
    {
      if base <= x < base + n {
        var i := x - base;
        // the instance of StoredAsBlock at position i
        var entry := supplied[i];
        assert base + i in addresses && addresses[base + i] == AddressRow(owner, entry.fullAddress, entry.addressType);
        assert base + i in addresses && addresses[base + i].owner == owner;
      }
    }
    KeysBelowOfBlock(owned, base, n);
  }

  /** Once `supplied` is stored under a block of fresh keys for an owner that
      had no addresses before, listing the owner's addresses gives back exactly
      those entries, in the order supplied. */
  lemma {:induction false} ListedBlock(addresses: map<Id, AddressRow>, owner: Id, base: Id, supplied: seq<AddressDTO>)
    requires 0 <= base
    requires forall a :: a in addresses ==> 0 <= a < base + |supplied|
    requires forall a :: a in addresses && addresses[a].owner == owner ==> base <= a
    requires StoredAsBlock(addresses, owner, base, supplied)
    ensures ListAddresses(addresses, base + |supplied|, OwnedBy(addresses, owner)) == StoredReplies(base, owner, supplied)
  {
    var n := |supplied|;
    var owned := OwnedBy(addresses, owner);
    assert forall a :: a in addresses && addresses[a].owner == owner ==> base <= a < base + n;
    OwnedKeysAreBlock(addresses, owner, base, supplied);
    var ids := KeysBelow(owned, base + n);
    forall i | 0 <= i < |ids|
      ensures ids[i] == base + i && ids[i] in addresses
    {
      // the instance of StoredAsBlock at position i
      var entry := supplied[i];
      assert base + i in addresses && addresses[base + i] == AddressRow(owner, entry.fullAddress, entry.addressType);
    }
    var listed := AddressesAt(addresses, ids);
    assert ListAddresses(addresses, base + n, owned) == listed;
    var expected := StoredReplies(base, owner, supplied);
    forall i | 0 <= i < n
      ensures listed[i] == expected[i]
    {
      assert ids[i] == base + i;
      assert addresses[base + i] == AddressRow(owner, supplied[i].fullAddress, supplied[i].addressType);
    }
    assert listed == expected;
  }

  /** `updateUser`: an unknown id fails with "User not found"; renaming to a
      name another user holds fails with "Username already exists"; keeping
      the same name is allowed. Failures change nothing. A success overwrites
      only name, password, phone and status of that one user; the key, the
      registration date, the addresses and all other users stay. */
  method UpdateUser(db: Database, id: Id, dto: UserDTO) returns (r: Result<UserDTO, ServiceError>)
    requires db.Valid()
    modifies db
    ensures db.Valid()
    ensures r.Success? <==>
      id in old(db.users) && (dto.userName == old(db.users)[id].userName || !NameTaken(old(db.users), dto.userName))
    ensures id !in old(db.users) ==> r == Failure(UserNotFound(id))
    ensures
      id in old(db.users) && dto.userName != old(db.users)[id].userName && NameTaken(old(db.users), dto.userName)
      ==> r == Failure(UsernameExists)
    ensures r.Failure? ==> unchanged(db)
    ensures r.Success? ==>
      && db.users == old(db.users)[id := old(db.users)[id].(
           userName := dto.userName, userPassword := dto.userPassword,
           userPhoneNumber := dto.userPhoneNumber, status := dto.status)]
      && db.users[id].dateOfRegistration == old(db.users)[id].dateOfRegistration
      && db.addresses == old(db.addresses)
      && db.nextUserId == old(db.nextUserId) && db.nextAddressId == old(db.nextAddressId)
      && r.value == ConvertToDTO(db, id)
  {
    var found := db.FindUser(id);
    if found.None? {
      return Failure(UserNotFound(id));
    }
    var existing := found.value;
    if existing.userName != dto.userName && NameTaken(db.users, dto.userName) {
      return Failure(UsernameExists);
    }
    existing.userName := dto.userName;
    existing.userPassword := dto.userPassword;
    existing.userPhoneNumber := dto.userPhoneNumber;
    existing.status := dto.status;
    db.MergeUser(existing);
    r := Success(ConvertToDTO(db, id));
  }

  /** `deleteUser`: an unknown id fails and changes nothing; otherwise exactly
      that user is removed, together with every address it owns. */
  method DeleteUser(db: Database, id: Id) returns (r: Result<(), ServiceError>)
    requires db.Valid()
    modifies db
    ensures db.Valid()
    ensures r.Failure? <==> id !in old(db.users)
    ensures r.Failure? ==> r.error == UserNotFound(id) && unchanged(db)
    ensures r.Success? ==>
      && db.users == old(db.users) - {id}
      && db.addresses == WithoutOwner(old(db.addresses), id)
      && OwnedBy(db.addresses, id) == {}
      && db.nextUserId == old(db.nextUserId) && db.nextAddressId == old(db.nextAddressId)
  {
    if id !in db.users {
      return Failure(UserNotFound(id));
    }
    db.DeleteUserCascade(id);
    r := Success(());
  }
}
