/** The principal's address book and wishlist. Each handler edits the user document
    attached to the request and saves it. */
module UserController {
  import opened Common
  import opened UserModel
  import Store

  /** The address fields of a request body; absent fields are None. */
  datatype AddressForm = AddressForm(
    addressLabel: Option<string>, fullName: Option<string>, streetAddress: Option<string>,
    city: Option<string>, state: Option<string>, zipCode: Option<string>,
    phoneNumber: Option<string>, isDefault: Option<bool>)

  /** The `forEach` that clears every default flag. */
  method ClearDefaults(addrs: seq<Address>) returns (cleared: seq<Address>)
    ensures |cleared| == |addrs|
    ensures forall i :: 0 <= i < |addrs| ==> cleared[i] == addrs[i].(isDefault := false)
  {
    cleared := addrs;
    var i := 0;
    while i < |cleared|
      invariant 0 <= i <= |cleared| == |addrs|
      invariant forall j :: 0 <= j < i ==> cleared[j] == addrs[j].(isDefault := false)
      invariant forall j :: i <= j < |cleared| ==> cleared[j] == addrs[j]
    {
      cleared := cleared[i := cleared[i].(isDefault := false)];
      i := i + 1;
    }
  }

  /** After clearing, any one address may be the default. */
  lemma NoDefaultsThenOne(addrs: seq<Address>, a: Address)
    requires forall i :: 0 <= i < |addrs| ==> !addrs[i].isDefault
    ensures AtMostOneDefault(addrs + [a])
  {
  }

  /** Without clearing, only a non-default address keeps the invariant. */
  lemma AppendNonDefault(addrs: seq<Address>, a: Address)
    requires AtMostOneDefault(addrs) && !a.isDefault
    ensures AtMostOneDefault(addrs + [a])
  {
  }

  /** The five fields addAddress checks itself; label and phone number are left to the schema. */
  predicate HasRequiredFields(form: AddressForm)
  {
    Truthy(form.fullName) && Truthy(form.streetAddress) && Truthy(form.city)
    && Truthy(form.state) && Truthy(form.zipCode)
  }

  /** The address addAddress pushes: `isDefault || false`. */
  function NewAddress(id: AddressId, form: AddressForm): (a: Address)
    ensures a.isDefault <==> form.isDefault == Some(true)
    ensures HasRequiredFields(form) ==>
      (AddressValid(a) <==> Truthy(form.addressLabel) && Truthy(form.phoneNumber))
  {
    Address(id, OrElse(form.addressLabel, ""), OrElse(form.fullName, ""), OrElse(form.streetAddress, ""),
            OrElse(form.city, ""), OrElse(form.state, ""), OrElse(form.zipCode, ""),
            OrElse(form.phoneNumber, ""), form.isDefault == Some(true))
  }

  predicate HasAddressId(addrs: seq<Address>, id: AddressId)
  {
    exists i :: 0 <= i < |addrs| && addrs[i].id == id
  }

  /** The addresses after a save that changes only one user's address book. */
  lemma AddressBookUpdate(users: map<UserId, User>, uid: UserId, addrs: seq<Address>)
    requires Store.UsersValid(users) && uid in users
    requires AddressesValid(addrs) && AddressIdsDistinct(addrs) && AtMostOneDefault(addrs)
    ensures Store.UsersValid(users[uid := users[uid].(addresses := addrs)])
  {
  }

  /** addAddress. Missing required fields are refused; a default address takes the flag
      from every earlier one; a missing label or phone number fails the schema at save.
      Failures leave the address book as it was. */
  method AddAddress(db: Store.Db, uid: UserId, form: AddressForm, freshId: AddressId)
    returns (r: Result<seq<Address>>)
    requires Store.UsersValid(db.users) && uid in db.users && !HasAddressId(db.users[uid].addresses, freshId)
    modifies db`users
    ensures Store.UsersValid(db.users)
    ensures r.Err? ==> db.users == old(db.users)
    ensures !HasRequiredFields(form) ==> r == Err(BadRequest("Missing required address fields"))
    ensures HasRequiredFields(form) && !AddressValid(NewAddress(freshId, form)) ==> r == Err(Internal)
    ensures HasRequiredFields(form) && AddressValid(NewAddress(freshId, form)) ==>
      var old_ := old(db.users)[uid].addresses;
      r.Ok? && |r.value| == |old_| + 1 && r.value[|old_|] == NewAddress(freshId, form)
      && (forall i :: 0 <= i < |old_| ==>
            r.value[i] == if form.isDefault == Some(true) then old_[i].(isDefault := false) else old_[i])
      && db.users == old(db.users)[uid := old(db.users)[uid].(addresses := r.value)]
  {
    if !HasRequiredFields(form) {
      return Err(BadRequest("Missing required address fields"));
    }
    var user := db.users[uid];
    var addrs := user.addresses;
    if form.isDefault == Some(true) {
      addrs := ClearDefaults(addrs);
    }
    var a := NewAddress(freshId, form);
    if !AddressValid(a) {
      return Err(Internal);
    }
    addrs := addrs + [a];
    AddressBookUpdate(db.users, uid, addrs);
    db.users := db.users[uid := user.(addresses := addrs)];
    r := Ok(addrs);
  }

  /** `user.addresses.id(addressId)`. */
  function FindAddress(addrs: seq<Address>, id: AddressId): (r: Option<nat>)
    ensures r.Some? ==> r.value < |addrs| && addrs[r.value].id == id
    ensures r.None? <==> !HasAddressId(addrs, id)
  {
    if addrs == [] then None
    else if addrs[|addrs| - 1].id == id then Some(|addrs| - 1)
    else FindAddress(addrs[..|addrs| - 1], id)
  }

  /** The field-by-field update: `value || old` for each text field, and the flag only
      when it is given. */
  function EditedAddress(a: Address, form: AddressForm): Address
  {
    a.(addressLabel := OrElse(form.addressLabel, a.addressLabel),
       fullName := OrElse(form.fullName, a.fullName),
       streetAddress := OrElse(form.streetAddress, a.streetAddress),
       city := OrElse(form.city, a.city),
       state := OrElse(form.state, a.state),
       zipCode := OrElse(form.zipCode, a.zipCode),
       phoneNumber := OrElse(form.phoneNumber, a.phoneNumber),
       isDefault := if form.isDefault.Some? then form.isDefault.value else a.isDefault)
  }

  /** Each text field takes a truthy new value and otherwise keeps the old text (an empty
      string included); the flag takes a given value and otherwise stays; the id never
      changes, so a valid address stays valid. */
  lemma EditedAddressKeeps(a: Address, form: AddressForm)
    ensures var e := EditedAddress(a, form);
      && e.id == a.id
      && (Truthy(form.addressLabel) ==> e.addressLabel == form.addressLabel.value)
      && (!Truthy(form.addressLabel) ==> e.addressLabel == a.addressLabel)
      && (Truthy(form.fullName) ==> e.fullName == form.fullName.value)
      && (!Truthy(form.fullName) ==> e.fullName == a.fullName)
      && (Truthy(form.streetAddress) ==> e.streetAddress == form.streetAddress.value)
      && (!Truthy(form.streetAddress) ==> e.streetAddress == a.streetAddress)
      && (Truthy(form.city) ==> e.city == form.city.value)
      && (!Truthy(form.city) ==> e.city == a.city)
      && (Truthy(form.state) ==> e.state == form.state.value)
      && (!Truthy(form.state) ==> e.state == a.state)
      && (Truthy(form.zipCode) ==> e.zipCode == form.zipCode.value)
      && (!Truthy(form.zipCode) ==> e.zipCode == a.zipCode)
      && (Truthy(form.phoneNumber) ==> e.phoneNumber == form.phoneNumber.value)
      && (!Truthy(form.phoneNumber) ==> e.phoneNumber == a.phoneNumber)
      && (form.isDefault.Some? ==> e.isDefault == form.isDefault.value)
      && (form.isDefault.None? ==> e.isDefault == a.isDefault)
      && (AddressValid(a) ==> AddressValid(e))
  {
  }

  /** Setting the flag on one address after clearing all keeps at most one default;
      so does clearing or keeping it without clearing the others. */
  lemma {:induction false} EditKeepsOneDefault(addrs: seq<Address>, i: nat, form: AddressForm)
    requires i < |addrs| && AtMostOneDefault(addrs)
    requires form.isDefault == Some(true) ==> forall j :: 0 <= j < |addrs| ==> !addrs[j].isDefault
    ensures AtMostOneDefault(addrs[i := EditedAddress(addrs[i], form)])
  {
    var edited := addrs[i := EditedAddress(addrs[i], form)];
    forall j, k | 0 <= j < |edited| && 0 <= k < |edited| && edited[j].isDefault && edited[k].isDefault
      ensures j == k
    {
      if j != i && k != i {
        assert addrs[j].isDefault && addrs[k].isDefault;
      }
    }
  }

  /** updateAddress: unknown id is refused; a truthy isDefault clears every flag first;
      then the address takes each truthy field and the flag when given. */
  method UpdateAddress(db: Store.Db, uid: UserId, addressId: AddressId, form: AddressForm)
    returns (r: Result<seq<Address>>)
    requires Store.UsersValid(db.users) && uid in db.users
    modifies db`users
    ensures Store.UsersValid(db.users)
    ensures r.Err? ==> db.users == old(db.users)
    ensures !HasAddressId(old(db.users)[uid].addresses, addressId) ==> r == Err(NotFound("Address not found"))
    ensures HasAddressId(old(db.users)[uid].addresses, addressId) ==>
      var old_ := old(db.users)[uid].addresses;
      var i := FindAddress(old_, addressId).value;
      var cleared := if form.isDefault == Some(true) then old_[i].(isDefault := false) else old_[i];
      r.Ok? && |r.value| == |old_| && r.value[i] == EditedAddress(cleared, form)
      && (forall j :: 0 <= j < |old_| && j != i ==>
            r.value[j] == if form.isDefault == Some(true) then old_[j].(isDefault := false) else old_[j])
      && db.users == old(db.users)[uid := old(db.users)[uid].(addresses := r.value)]
  {
    var user := db.users[uid];
    var index := FindAddress(user.addresses, addressId);
    if index.None? {
      return Err(NotFound("Address not found"));
    }
    var i := index.value;
    var addrs := user.addresses;
    if form.isDefault == Some(true) {
      addrs := ClearDefaults(addrs);
    }
    EditKeepsOneDefault(addrs, i, form);
    EditedAddressKeeps(addrs[i], form);
    addrs := addrs[i := EditedAddress(addrs[i], form)];
    AddressBookUpdate(db.users, uid, addrs);
    db.users := db.users[uid := user.(addresses := addrs)];
    r := Ok(addrs);
  }

  /** `addresses.pull(addressId)`: every address with that id goes. */
  function RemoveAddress(addrs: seq<Address>, id: AddressId): (r: seq<Address>)
    ensures |r| <= |addrs|
  {
    if addrs == [] then []
    else
      var rest := RemoveAddress(addrs[..|addrs| - 1], id);
      if addrs[|addrs| - 1].id == id then rest else rest + [addrs[|addrs| - 1]]
  }

  /** With distinct ids, pulling an id removes exactly the one address at its index. */
  lemma {:induction false} RemoveAddressAt(addrs: seq<Address>, i: nat)
    requires i < |addrs| && AddressIdsDistinct(addrs)
    ensures RemoveAddress(addrs, addrs[i].id) == addrs[..i] + addrs[i + 1..]
  {
    var n := |addrs| - 1;
    var init := addrs[..n];
    if i == n {
      RemoveAbsentAddress(init, addrs[i].id);
    } else {
      RemoveAddressAt(init, i);
      assert init[..i] + init[i + 1..] + [addrs[n]] == addrs[..i] + addrs[i + 1..];
    }
  }

  lemma {:induction false} RemoveAbsentAddress(addrs: seq<Address>, id: AddressId)
    requires !HasAddressId(addrs, id)
    ensures RemoveAddress(addrs, id) == addrs
  {
    if addrs != [] {
      RemoveAbsentAddress(addrs[..|addrs| - 1], id);
    }
  }

  /** Removing one address keeps the address book's invariants. */
  lemma DeleteAtKeeps(addrs: seq<Address>, i: nat)
    requires i < |addrs| && AddressesValid(addrs) && AddressIdsDistinct(addrs) && AtMostOneDefault(addrs)
    ensures var rest := addrs[..i] + addrs[i + 1..];
      AddressesValid(rest) && AddressIdsDistinct(rest) && AtMostOneDefault(rest)
  {
    var rest := addrs[..i] + addrs[i + 1..];
    assert forall k :: 0 <= k < |rest| ==> rest[k] == addrs[if k < i then k else k + 1];
  }

  /** Deleting the default address leaves none. */
  lemma DeleteDefaultLeavesNone(addrs: seq<Address>, i: nat)
    requires i < |addrs| && AddressIdsDistinct(addrs) && AtMostOneDefault(addrs) && addrs[i].isDefault
    ensures var rest := RemoveAddress(addrs, addrs[i].id);
      forall k :: 0 <= k < |rest| ==> !rest[k].isDefault
  {
    RemoveAddressAt(addrs, i);
    var rest := addrs[..i] + addrs[i + 1..];
    forall k | 0 <= k < |rest| ensures !rest[k].isDefault {
      var j := if k < i then k else k + 1;
      assert rest[k] == addrs[j] && j != i;
    }
  }

  /** deleteAddress: unknown id is refused; otherwise that address is removed. */
  method DeleteAddress(db: Store.Db, uid: UserId, addressId: AddressId) returns (r: Result<seq<Address>>)
    requires Store.UsersValid(db.users) && uid in db.users
    modifies db`users
    ensures Store.UsersValid(db.users)
    ensures r.Err? ==> db.users == old(db.users)
    ensures !HasAddressId(old(db.users)[uid].addresses, addressId) ==> r == Err(NotFound("Address not found"))
    ensures HasAddressId(old(db.users)[uid].addresses, addressId) ==>
      var old_ := old(db.users)[uid].addresses;
      var i := FindAddress(old_, addressId).value;
      r == Ok(old_[..i] + old_[i + 1..])
      && db.users == old(db.users)[uid := old(db.users)[uid].(addresses := r.value)]
  {
    var user := db.users[uid];
    var index := FindAddress(user.addresses, addressId);
    if index.None? {
      return Err(NotFound("Address not found"));
    }
    var addrs := user.addresses;
    var i := index.value;
    RemoveAddressAt(addrs, i);
    DeleteAtKeeps(addrs, i);
    var rest := RemoveAddress(addrs, addressId);
    AddressBookUpdate(db.users, uid, rest);
    db.users := db.users[uid := user.(addresses := rest)];
    r := Ok(rest);
  }

  /** The wishlist after a change that keeps it free of repeats. */
  lemma WishlistUpdate(users: map<UserId, User>, uid: UserId, wishlist: seq<ProductId>)
    requires Store.UsersValid(users) && uid in users && NoDuplicates(wishlist)
    ensures Store.UsersValid(users[uid := users[uid].(wishlist := wishlist)])
  {
  }

  /** addToWishlist: a product already listed is refused; otherwise it is appended. */
  method AddToWishlist(db: Store.Db, uid: UserId, pid: ProductId) returns (r: Result<seq<ProductId>>)
    requires Store.UsersValid(db.users) && uid in db.users
    modifies db`users
    ensures Store.UsersValid(db.users)
    ensures pid in old(db.users)[uid].wishlist ==>
      r == Err(BadRequest("Product already in wishlist")) && db.users == old(db.users)
    ensures pid !in old(db.users)[uid].wishlist ==>
      r == Ok(old(db.users)[uid].wishlist + [pid])
      && db.users == old(db.users)[uid := old(db.users)[uid].(wishlist := r.value)]
  {
    var user := db.users[uid];
    if pid in user.wishlist {
      return Err(BadRequest("Product already in wishlist"));
    }
    var wishlist := user.wishlist + [pid];
    WishlistUpdate(db.users, uid, wishlist);
    db.users := db.users[uid := user.(wishlist := wishlist)];
    r := Ok(wishlist);
  }

  /** `wishlist.pull(productId)`: every occurrence goes. */
  function RemoveAll(wishlist: seq<ProductId>, pid: ProductId): (r: seq<ProductId>)
    ensures |r| <= |wishlist|
  {
    if wishlist == [] then []
    else
      var rest := RemoveAll(wishlist[..|wishlist| - 1], pid);
      if wishlist[|wishlist| - 1] == pid then rest else rest + [wishlist[|wishlist| - 1]]
  }

  /** Pulling keeps every other product and the wishlist free of repeats. */
  lemma {:induction false} RemoveAllMembers(wishlist: seq<ProductId>, pid: ProductId)
    ensures forall x :: x in RemoveAll(wishlist, pid) <==> x in wishlist && x != pid
    ensures NoDuplicates(wishlist) ==> NoDuplicates(RemoveAll(wishlist, pid))
  {
    if wishlist != [] {
      var init := wishlist[..|wishlist| - 1];
      RemoveAllMembers(init, pid);
      assert wishlist == init + [wishlist[|wishlist| - 1]];
      if NoDuplicates(wishlist) {
        assert NoDuplicates(init);
        var rest := RemoveAll(init, pid);
        forall k | 0 <= k < |rest| ensures rest[k] != wishlist[|wishlist| - 1] {
          assert rest[k] in init;
        }
      }
    }
  }

  /** removeFromWishlist: a product not listed is refused; otherwise it is pulled. */
  method RemoveFromWishlist(db: Store.Db, uid: UserId, pid: ProductId) returns (r: Result<seq<ProductId>>)
    requires Store.UsersValid(db.users) && uid in db.users
    modifies db`users
    ensures Store.UsersValid(db.users)
    ensures pid !in old(db.users)[uid].wishlist ==>
      r == Err(BadRequest("Product not found in wishlist")) && db.users == old(db.users)
    ensures pid in old(db.users)[uid].wishlist ==>
      r == Ok(RemoveAll(old(db.users)[uid].wishlist, pid))
      && db.users == old(db.users)[uid := old(db.users)[uid].(wishlist := r.value)]
  {
    var user := db.users[uid];
    if pid !in user.wishlist {
      return Err(BadRequest("Product not found in wishlist"));
    }
    RemoveAllMembers(user.wishlist, pid);
    var wishlist := RemoveAll(user.wishlist, pid);
    WishlistUpdate(db.users, uid, wishlist);
    db.users := db.users[uid := user.(wishlist := wishlist)];
    r := Ok(wishlist);
  }
}
