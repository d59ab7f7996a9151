/**
  The admin application's in-memory user registry behind `/users`: a list of
  customers kept in the controller, with a listing, a create that numbers the
  new customer after the current list length, and a delete by id.

  The numbering rule means ids are dense while only creates happen, but a
  create after a delete can hand out an id that is still in use.
 */
module UserRegistry {

  import opened Web
  import Decimal

  /** A customer as posted in the request body; only `id` is touched here. */
  datatype Customer = Customer(id: int, username: string, firstName: string, lastName: string)

  /** The controller's `users` list. */
  datatype Registry = Registry(users: seq<Customer>)

  const NotFoundMessage: string := "User not found."

  /** The success message of a delete, with the id rendered as Java renders a `Long`. */
  function DeletedMessage(id: int): string {
    "User with ID " + Decimal.LongToString(id) + " deleted successfully."
  }

  predicate HasId(users: seq<Customer>, id: int) {
    exists j :: 0 <= j < |users| && users[j].id == id
  }

  /** `i` is the position `stream().filter(...).findFirst()` stops at. */
  predicate IsFirstWithId(users: seq<Customer>, id: int, i: int) {
    && 0 <= i < |users|
    && users[i].id == id
    && forall j :: 0 <= j < i ==> users[j].id != id
  }

  /** The list with the element at `i` taken out. */
  function RemoveAt(users: seq<Customer>, i: nat): seq<Customer>
    requires i < |users|
  {
    users[..i] + users[i + 1..]
  }

  /** Linear search for the first customer carrying `id`. */
  function FindFirst(users: seq<Customer>, id: int): (r: Option<nat>)
    ensures r.Some? ==> IsFirstWithId(users, id, r.value)
    ensures r.None? <==> !HasId(users, id)
    decreases |users|
  {
    if |users| == 0 then None
    else if users[0].id == id then Some(0)
    else
      match FindFirst(users[1..], id)
      case None =>
        assert forall j :: 1 <= j < |users| ==> users[j] == users[1..][j - 1];
        None
      case Some(k) =>
        assert users[k + 1] == users[1..][k];
        assert forall j :: 1 <= j < k + 1 ==> users[j] == users[1..][j - 1];
        Some(k + 1)
  }

  /** `GET /users`: the list itself. */
  function GetAllUsers(reg: Registry): seq<Customer> {
    reg.users
  }

  /** `POST /users`: number the customer after the current length and append it. */
  function CreateCustomer(reg: Registry, c: Customer): (r: (Registry, Customer))
    ensures r.1.id == |reg.users| + 1
    ensures r.1.username == c.username && r.1.firstName == c.firstName && r.1.lastName == c.lastName
    ensures |r.0.users| == |reg.users| + 1
    ensures r.0.users[..|reg.users|] == reg.users
    ensures r.0.users[|reg.users|] == r.1
  {
    var created := c.(id := |reg.users| + 1);
    (Registry(reg.users + [created]), created)
  }

  /** `DELETE /users/{id}`: drop the first customer with that id and report it,
      or report that there is none. */
  function DeleteUser(reg: Registry, id: int): (r: (Registry, string))
    ensures !HasId(reg.users, id) ==> r.0 == reg && r.1 == NotFoundMessage
    ensures HasId(reg.users, id) ==>
      && r.1 == DeletedMessage(id)
      && |r.0.users| == |reg.users| - 1
      && exists i | IsFirstWithId(reg.users, id, i) :: r.0.users == RemoveAt(reg.users, i)
  {
    match FindFirst(reg.users, id)
    case Some(i) => (Registry(RemoveAt(reg.users, i)), DeletedMessage(id))
    case None => (reg, NotFoundMessage)
  }

  /** A delete takes out exactly one element: the multiset of customers loses
      one occurrence of the first customer with the requested id, and nothing
      else. */
  lemma DeleteRemovesOne(reg: Registry, id: int, i: nat)
    requires IsFirstWithId(reg.users, id, i)
    ensures multiset(DeleteUser(reg, id).0.users) + multiset{reg.users[i]} == multiset(reg.users)
  {
    assert FindFirst(reg.users, id) == Some(i);
    var c := reg.users[i];
    assert reg.users == reg.users[..i] + [c] + reg.users[i + 1..];
    assert multiset(reg.users) == multiset(reg.users[..i]) + multiset{c} + multiset(reg.users[i + 1..]);
  }

  /** Customers that survive a delete keep their relative order: the result is
      a subsequence obtained by skipping exactly one position. */
  lemma DeleteKeepsOrder(reg: Registry, id: int, i: nat)
    requires IsFirstWithId(reg.users, id, i)
    ensures forall j :: 0 <= j < i ==> DeleteUser(reg, id).0.users[j] == reg.users[j]
    ensures forall j :: i <= j < |reg.users| - 1 ==> DeleteUser(reg, id).0.users[j] == reg.users[j + 1]
  {
    var r := FindFirst(reg.users, id);
    assert r == Some(i);
  }

  /** The success message names the deleted id, and the id can be read back
      from the text between the fixed prefix and suffix. */
  lemma DeletedMessageNamesId(reg: Registry, id: int)
    requires HasId(reg.users, id)
    ensures var msg := DeleteUser(reg, id).1;
      var pre := "User with ID ";
      var suf := " deleted successfully.";
      && |pre| + |suf| < |msg|
      && msg[..|pre|] == pre
      && msg[|msg| - |suf|..] == suf
      && Decimal.ParseLong(msg[|pre|..|msg| - |suf|]) == Some(id)
  {
    var msg := DeleteUser(reg, id).1;
    var pre := "User with ID ";
    var suf := " deleted successfully.";
    var digits := Decimal.LongToString(id);
    assert msg == pre + digits + suf;
    assert msg[|pre|..|msg| - |suf|] == digits;
    Decimal.LongRoundTrip(id);
  }

  /** Listing after a create shows the old list followed by the new customer. */
  lemma ListingAfterCreate(reg: Registry, c: Customer)
    ensures GetAllUsers(CreateCustomer(reg, c).0) == GetAllUsers(reg) + [CreateCustomer(reg, c).1]
  {
  }

  /** Ids are 1, 2, ..., n in list order. */
  predicate DenseIds(users: seq<Customer>) {
    forall i :: 0 <= i < |users| ==> users[i].id == i + 1
  }

  predicate UniqueIds(users: seq<Customer>) {
    forall i, j :: 0 <= i < j < |users| ==> users[i].id != users[j].id
  }

  /** While only creates happen, ids stay dense and therefore unique. */
  lemma CreatePreservesDenseIds(reg: Registry, c: Customer)
    requires DenseIds(reg.users)
    ensures DenseIds(CreateCustomer(reg, c).0.users)
    ensures UniqueIds(CreateCustomer(reg, c).0.users)
  {
  }

  /** Deleting any id but the last from a densely numbered list and then
      creating a customer yields two customers with the same id: the new one
      and the former last one. */
  lemma CreateAfterDeleteReusesId(reg: Registry, id: int, c: Customer)
    requires DenseIds(reg.users)
    requires 1 <= id < |reg.users|
    ensures var after := CreateCustomer(DeleteUser(reg, id).0, c).0.users;
      var n := |reg.users|;
      && |after| == n
      && after[n - 2].id == n
      && after[n - 1].id == n
      && !UniqueIds(after)
  {
    var n := |reg.users|;
    assert IsFirstWithId(reg.users, id, id - 1);
    DeleteKeepsOrder(reg, id, id - 1);
    var deleted := DeleteUser(reg, id).0;
    assert deleted.users[n - 2] == reg.users[n - 1];
  }
}
