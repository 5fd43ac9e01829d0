/** `AddressService`: create, read, update and delete of `user_addresses` rows. */
module AddressService {
  import opened Common
  import opened Entity
  import opened Dto
  import opened Keys
  import opened Store

  /** `convertToDTO`: the row under its key, with its owner's id as `userId`. */
  function AddressToDTO(id: Id, row: AddressRow): (d: AddressDTO)
    ensures d.addressId == Some(id) && d.userId == Some(row.owner)
    ensures d.fullAddress == row.fullAddress && d.addressType == row.addressType
  {
    AddressDTO(Some(id), Some(row.owner), row.fullAddress, row.addressType)
  }

  /** The rows under `ids`, converted, in the order of `ids`. */
  function AddressesAt(addresses: map<Id, AddressRow>, ids: seq<Id>): (r: seq<AddressDTO>)
    requires forall i :: 0 <= i < |ids| ==> ids[i] in addresses
    ensures |r| == |ids|
    ensures forall i :: 0 <= i < |ids| ==> r[i] == AddressToDTO(ids[i], addresses[ids[i]])
  {
    seq(|ids|, i requires 0 <= i < |ids| => AddressToDTO(ids[i], addresses[ids[i]]))
  }

  /** Every entry of `r` is the converted stored address under its own id,
      the ids ascend, and every stored address of the set `keys` appears. */
  ghost predicate ListsExactly(r: seq<AddressDTO>, addresses: map<Id, AddressRow>, keys: set<Id>)
  {
    && (forall i :: 0 <= i < |r| ==>
          && r[i].addressId.Some? && r[i].addressId.value in keys
          && r[i].addressId.value in addresses
          && r[i] == AddressToDTO(r[i].addressId.value, addresses[r[i].addressId.value]))
    && (forall i, j :: 0 <= i < j < |r| ==>
          r[i].addressId.Some? && r[j].addressId.Some? && r[i].addressId.value < r[j].addressId.value)
    && (forall a :: a in keys ==> exists i :: 0 <= i < |r| && r[i].addressId == Some(a))
  }

  /** The addresses of `keys` in ascending key order; `bound` exceeds every
      key of the table. */
  function ListAddresses(addresses: map<Id, AddressRow>, bound: Id, keys: set<Id>): (r: seq<AddressDTO>)
    requires forall a :: a in addresses ==> 0 <= a < bound
    requires keys <= addresses.Keys
    ensures ListsExactly(r, addresses, keys)
  {
    var ids := KeysBelow(keys, bound);
    var r := AddressesAt(addresses, ids);
    assert forall a :: a in keys ==> r[IndexOf(ids, a)].addressId == Some(a);
    r
  }

  /** The position of a member of a sequence. */
  function IndexOf(s: seq<int>, x: int): (i: nat)
    requires x in s
    ensures i < |s| && s[i] == x
  {
    if s[0] == x then 0 else 1 + IndexOf(s[1..], x)
  }

  /** `getAllAddresses`: every stored address, each exactly once. */
  function GetAllAddresses(db: Database): (r: seq<AddressDTO>)
    reads db
    requires db.Valid()
    ensures ListsExactly(r, db.addresses, db.addresses.Keys)
  {
    ListAddresses(db.addresses, db.nextAddressId, db.addresses.Keys)
  }

  /** The keys of the addresses that `owner` owns (`findByUserMaster_UserId`). */
  function OwnedBy(addresses: map<Id, AddressRow>, owner: Id): set<Id>
  {
    set a | a in addresses && addresses[a].owner == owner
  }

  /** `getAddressesByUserId`: exactly the addresses whose owner is `userId`. */
  function GetAddressesByUserId(db: Database, userId: Id): (r: seq<AddressDTO>)
    reads db
    requires db.Valid()
    ensures ListsExactly(r, db.addresses, OwnedBy(db.addresses, userId))
    ensures forall i :: 0 <= i < |r| ==> r[i].userId == Some(userId)
  {
    ListAddresses(db.addresses, db.nextAddressId, OwnedBy(db.addresses, userId))
  }

  /** `getAddressById`: fails with "Address not found" for an unknown id. */
  function GetAddressById(db: Database, id: Id): (r: Result<AddressDTO, ServiceError>)
    reads db
    ensures r.Failure? <==> id !in db.addresses
    ensures r.Failure? ==> r.error == AddressNotFound(id)
    ensures r.Success? ==>
      && r.value.addressId == Some(id)
      && r.value.userId == Some(db.addresses[id].owner)
      && r.value.fullAddress == db.addresses[id].fullAddress
      && r.value.addressType == db.addresses[id].addressType
  {
    if id in db.addresses then Success(AddressToDTO(id, db.addresses[id]))
    else Failure(AddressNotFound(id))
  }

  /** `createAddress`: refuses a missing or unknown owner and saves nothing;
      otherwise stores exactly one new address owned by that user. */
  method CreateAddress(db: Database, dto: AddressDTO) returns (r: Result<AddressDTO, ServiceError>)
    requires db.Valid()
    modifies db
    ensures db.Valid()
    ensures r.Success? <==> dto.userId.Some? && dto.userId.value in old(db.users)
    ensures dto.userId.None? ==> r == Failure(IdMustNotBeNull)
    ensures dto.userId.Some? && dto.userId.value !in old(db.users) ==>
      r == Failure(UserNotFound(dto.userId.value))
    ensures r.Failure? ==> unchanged(db)
    ensures r.Success? ==>
      var aid := old(db.nextAddressId);
      && aid !in old(db.addresses) && db.nextAddressId == aid + 1
      && db.addresses == old(db.addresses)[aid := AddressRow(dto.userId.value, dto.fullAddress, dto.addressType)]
      && db.users == old(db.users) && db.nextUserId == old(db.nextUserId)
      && r.value == AddressDTO(Some(aid), dto.userId, dto.fullAddress, dto.addressType)
  {
    if dto.userId.None? {
      return Failure(IdMustNotBeNull);
    }
    var userId := dto.userId.value;
    var user := db.FindUser(userId);
    if user.None? {
      return Failure(UserNotFound(userId));
    }
    var row := AddressRow(userId, dto.fullAddress, dto.addressType);
    var aid := db.InsertAddress(row);
    r := Success(AddressToDTO(aid, row));
  }

  /** `updateAddress`: an unknown id fails and changes nothing; otherwise only
      `fullAddress` and `addressType` change. The owner stays, whatever
      `userId` the input carries, and every other address is untouched. */
  method UpdateAddress(db: Database, id: Id, dto: AddressDTO) returns (r: Result<AddressDTO, ServiceError>)
    requires db.Valid()
    modifies db
    ensures db.Valid()
    ensures r.Failure? <==> id !in old(db.addresses)
    ensures r.Failure? ==> r.error == AddressNotFound(id) && unchanged(db)
    ensures r.Success? ==>
      && db.addresses == old(db.addresses)[id := old(db.addresses)[id].(
           fullAddress := dto.fullAddress, addressType := dto.addressType)]
      && db.addresses[id].owner == old(db.addresses)[id].owner
      && db.users == old(db.users)
      && db.nextUserId == old(db.nextUserId) && db.nextAddressId == old(db.nextAddressId)
      && r.value == AddressDTO(Some(id), Some(db.addresses[id].owner), dto.fullAddress, dto.addressType)
  {
    if id !in db.addresses {
      return Failure(AddressNotFound(id));
    }
    var existing := db.addresses[id];
    existing := existing.(fullAddress := dto.fullAddress, addressType := dto.addressType);
    db.ReplaceAddress(id, existing);
    r := Success(AddressToDTO(id, existing));
  }

  /** `deleteAddress`: an unknown id fails and changes nothing; otherwise
      exactly that address is removed. */
  method DeleteAddress(db: Database, id: Id) returns (r: Result<(), ServiceError>)
    requires db.Valid()
    modifies db
    ensures db.Valid()
    ensures r.Failure? <==> id !in old(db.addresses)
    ensures r.Failure? ==> r.error == AddressNotFound(id) && unchanged(db)
    ensures r.Success? ==>
      && db.addresses == old(db.addresses) - {id}
      && db.users == old(db.users)
      && db.nextUserId == old(db.nextUserId) && db.nextAddressId == old(db.nextAddressId)
  {
    if id !in db.addresses {
      return Failure(AddressNotFound(id));
    }
    db.DeleteAddressRow(id);
    r := Success(());
  }
}
