/** The user document: identity fields, an address book and a wishlist. */
module UserModel {
  import opened Common

  datatype Address = Address(
    id: AddressId,
    addressLabel: string, fullName: string, streetAddress: string, city: string,
    state: string, zipCode: string, phoneNumber: string,
    isDefault: bool)

  datatype User = User(
    id: UserId,
    email: string,
    name: string,
    clerkId: ClerkId,
    addresses: seq<Address>,
    wishlist: seq<ProductId>)

  /** Every address field but isDefault is required, label and phone number included. */
  predicate AddressValid(a: Address)
  {
    && a.addressLabel != "" && a.fullName != "" && a.streetAddress != "" && a.city != ""
    && a.state != "" && a.zipCode != "" && a.phoneNumber != ""
  }

  predicate AddressesValid(addrs: seq<Address>)
  {
    forall i :: 0 <= i < |addrs| ==> AddressValid(addrs[i])
  }

  predicate AddressIdsDistinct(addrs: seq<Address>)
  {
    forall i, j :: 0 <= i < j < |addrs| ==> addrs[i].id != addrs[j].id
  }

  /** At most one address carries the default flag. The schema does not enforce it;
      the address handlers do. */
  predicate AtMostOneDefault(addrs: seq<Address>)
  {
    forall i, j :: 0 <= i < |addrs| && 0 <= j < |addrs| && addrs[i].isDefault && addrs[j].isDefault ==> i == j
  }

  /** The wishlist is a list of product references; the schema allows repeats,
      the wishlist handlers do not add any. */
  predicate NoDuplicates(wishlist: seq<ProductId>)
  {
    forall i, j :: 0 <= i < j < |wishlist| ==> wishlist[i] != wishlist[j]
  }

  /** The required fields of a user, and of each of its addresses. */
  predicate UserValid(u: User)
  {
    u.email != "" && u.name != "" && u.clerkId != "" && AddressesValid(u.addresses)
  }

  /** email and clerkId are unique across users. */
  predicate IdentitiesUnique(users: map<UserId, User>)
  {
    forall a, b :: a in users && b in users && a != b ==>
      users[a].email != users[b].email && users[a].clerkId != users[b].clerkId
  }

  /** The default flag of an address that does not give one. */
  const DefaultIsDefault: bool := false

  /** Two default addresses break the handlers' invariant but not the schema. */
  lemma SchemaAllowsTwoDefaults(a: Address, b: Address)
    requires AddressValid(a) && AddressValid(b) && a.isDefault && b.isDefault
    ensures AddressesValid([a, b]) && !AtMostOneDefault([a, b])
  {
    assert [a, b][0].isDefault && [a, b][1].isDefault;
  }
}
