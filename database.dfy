/** The database behind utils.DB, as an in-memory store: the users table and
    the orders table, each kept in ascending primary-key order, and the two
    serial counters that hand out fresh ids (ids are never reused). */
module Database {

  import opened Wrappers
  import opened Seqs
  import opened Strconv
  import opened Models

  ghost predicate UserIdsAscending(users: seq<User>) {
    forall i, j :: 0 <= i < j < |users| ==> users[i].id < users[j].id
  }

  ghost predicate OrderIdsAscending(orders: seq<Order>) {
    forall i, j :: 0 <= i < j < |orders| ==> orders[i].id < orders[j].id
  }

  /** The uniqueness the `gorm:"unique"` tag on User.Email asks for. */
  ghost predicate EmailsUnique(users: seq<User>) {
    forall i, j :: 0 <= i < j < |users| ==> users[i].email != users[j].email
  }

  /** `DB.First(&user, id)` with an integer id: the row with that primary key. */
  function FindUser(users: seq<User>, id: int): (r: Option<nat>)
    ensures r.Some? ==> r.value < |users| && users[r.value].id == id
    ensures r.None? <==> forall k :: 0 <= k < |users| ==> users[k].id != id
  {
    FirstIndex(users, (u: User) => u.id == id)
  }

  /** What the database makes of a path id that GORM sends as a raw SQL
      condition (`WHERE <id>`): an error, or a condition on rows. */
  datatype RawCondition = SqlError | Where(holds: User -> bool)

  /** The lookup the handlers evidently intend: a path id finds a row only
      when Atoi accepts it and a row has that id. */
  function IntegerUserIndex(users: seq<User>, idParam: string): (r: Option<nat>)
    ensures r.Some? ==> Atoi(idParam).Ok? && r.value < |users| && users[r.value].id == Atoi(idParam).value
    ensures r.None? <==> !Atoi(idParam).Ok? || forall k :: 0 <= k < |users| ==> users[k].id != Atoi(idParam).value
  {
    match Atoi(idParam)
    case Ok(n) => FindUser(users, n)
    case _ => None
  }

  /** `DB.First(&user, c.Param("id"))` as written: GORM reads a path id that
      Atoi accepts as a primary key, and hands any other one to the database
      as a raw condition, `raw`; `First` then returns the lowest-id row that
      satisfies it. */
  function UserIndex(users: seq<User>, idParam: string, raw: RawCondition): (r: Option<nat>)
    ensures r.Some? ==> r.value < |users|
    ensures Atoi(idParam).Ok? ==> r == IntegerUserIndex(users, idParam)
    ensures !Atoi(idParam).Ok? && r.Some? ==>
      raw.Where? && raw.holds(users[r.value]) && forall k :: 0 <= k < r.value ==> !raw.holds(users[k])
    ensures !Atoi(idParam).Ok? && r.None? ==>
      raw.SqlError? || forall k :: 0 <= k < |users| ==> !raw.holds(users[k])
  {
    if Atoi(idParam).Ok? then IntegerUserIndex(users, idParam)
    else match raw
      case SqlError => None
      case Where(holds) => FirstIndex(users, holds)
  }

  /** For the lookup as written, a path id such as "true", which the
      database reads as a condition every row satisfies, selects the
      lowest-id user. */
  lemma RawTrueSelectsLowestId(users: seq<User>)
    requires |users| > 0
    ensures UserIndex(users, "true", Where(_ => true)) == Some(0)
  {
    NonNumericIsSyntaxError("true", 0);
  }

  /** For the intended lookup, a deleted id finds nothing afterwards, so
      deleting the same id twice gives "not found" the second time. */
  lemma IntegerLookupGoneAfterDelete(users: seq<User>, idParam: string)
    requires UserIdsAscending(users) && IntegerUserIndex(users, idParam).Some?
    ensures IntegerUserIndex(RemoveAt(users, IntegerUserIndex(users, idParam).value), idParam) == None
  {
    RemovedIdIsGone(users, IntegerUserIndex(users, idParam).value);
  }

  /** `DB.Where("email = ?", email).First(&exists)`: a row with that email. */
  function FindEmail(users: seq<User>, email: string): (r: Option<nat>)
    ensures r.Some? ==> r.value < |users| && users[r.value].email == email
    ensures r.None? <==> forall k :: 0 <= k < |users| ==> users[k].email != email
  {
    FirstIndex(users, (u: User) => u.email == email)
  }

  /** The table without its k-th row (`DB.Delete(&user)`). */
  function RemoveAt<T>(s: seq<T>, k: nat): (r: seq<T>)
    requires k < |s|
    ensures |r| == |s| - 1
    ensures forall j :: 0 <= j < k ==> r[j] == s[j]
    ensures forall j :: k <= j < |r| ==> r[j] == s[j + 1]
  {
    s[..k] + s[k + 1..]
  }

  /** After a delete no row carries the deleted id, and every other row is still there. */
  lemma RemovedIdIsGone(users: seq<User>, k: nat)
    requires UserIdsAscending(users) && k < |users|
    ensures FindUser(RemoveAt(users, k), users[k].id) == None
    ensures UserIdsAscending(RemoveAt(users, k))
    ensures forall j :: 0 <= j < |users| && j != k ==> users[j] in RemoveAt(users, k)
  {
    var r := RemoveAt(users, k);
    forall j | 0 <= j < |users| && j != k ensures users[j] in r {
      if j < k { assert r[j] == users[j]; } else { assert r[j - 1] == users[j]; }
    }
  }

  class Store {
    var users: seq<User>
    var orders: seq<Order>
    var nextUserId: nat
    var nextOrderId: nat

    /** Rows are in ascending id order, every id was handed out by its
        counter, and every order names a user id that was handed out. */
    ghost predicate Valid()
      reads this
    {
      && nextUserId >= 1 && nextOrderId >= 1
      && UserIdsAscending(users)
      && (forall k :: 0 <= k < |users| ==> 1 <= users[k].id < nextUserId)
      && OrderIdsAscending(orders)
      && (forall k :: 0 <= k < |orders| ==> 1 <= orders[k].id < nextOrderId)
      && (forall k :: 0 <= k < |orders| ==> 1 <= orders[k].userId < nextUserId)
    }

    /** An empty, freshly migrated database. */
    constructor ()
      ensures Valid()
      ensures users == [] && orders == [] && nextUserId == 1 && nextOrderId == 1
    {
      users, orders := [], [];
      nextUserId, nextOrderId := 1, 1;
    }

    /** `DB.Create(&user)`: the row gets the next serial id and is appended. */
    method InsertUser(name: string, email: string, age: int, passwordHash: string) returns (u: User)
      requires Valid()
      modifies this
      ensures Valid()
      ensures u == User(old(nextUserId), name, email, age, passwordHash)
      ensures forall k :: 0 <= k < |old(users)| ==> old(users)[k].id != u.id
      ensures users == old(users) + [u] && nextUserId == old(nextUserId) + 1
      ensures orders == old(orders) && nextOrderId == old(nextOrderId)
    {
      u := User(nextUserId, name, email, age, passwordHash);
      users := users + [u];
      nextUserId := nextUserId + 1;
    }

    /** Writes back the k-th row with new name, email and age (`DB.Model(&user).Updates(...)`). */
    method UpdateUserAt(k: nat, name: string, email: string, age: int) returns (u: User)
      requires Valid() && k < |users|
      modifies this
      ensures Valid()
      ensures u == old(users)[k].(name := name, email := email, age := age)
      ensures users == old(users)[k := u]
      ensures nextUserId == old(nextUserId)
      ensures orders == old(orders) && nextOrderId == old(nextOrderId)
    {
      u := users[k].(name := name, email := email, age := age);
      users := users[k := u];
    }

    /** `DB.Delete(&user)`: removes the k-th row, and only it; orders are kept. */
    method DeleteUserAt(k: nat)
      requires Valid() && k < |users|
      modifies this
      ensures Valid()
      ensures users == RemoveAt(old(users), k)
      ensures nextUserId == old(nextUserId)
      ensures orders == old(orders) && nextOrderId == old(nextOrderId)
    {
      var r := RemoveAt(users, k);
      RemovedIdIsGone(users, k);
      assert forall j :: 0 <= j < |r| ==> 1 <= r[j].id < nextUserId by {
        forall j | 0 <= j < |r| ensures 1 <= r[j].id < nextUserId {
          assert r[j] == if j < k then users[j] else users[j + 1];
        }
      }
      users := r;
    }

    /** `DB.Create(&order)` for a user id that is in the users table. */
    method InsertOrder(userId: nat, product: string, quantity: int, price: Price, createdAt: Timestamp)
      returns (o: Order)
      requires Valid() && FindUser(users, userId).Some?
      modifies this
      ensures Valid()
      ensures o == Order(old(nextOrderId), userId, product, quantity, price, createdAt)
      ensures forall k :: 0 <= k < |old(orders)| ==> old(orders)[k].id != o.id
      ensures orders == old(orders) + [o] && nextOrderId == old(nextOrderId) + 1
      ensures users == old(users) && nextUserId == old(nextUserId)
    {
      o := Order(nextOrderId, userId, product, quantity, price, createdAt);
      orders := orders + [o];
      nextOrderId := nextOrderId + 1;
    }
  }
}
