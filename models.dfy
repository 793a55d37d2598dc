/** The records of internal/models: the stored user, the three request bodies
    and the stored order, plus the JSON shape a user is serialized to. */
module Models {

  /** A float64 price, kept as its IEEE-754 bit pattern: the handlers only copy it. */
  datatype Price = Float64Bits(bits: bv64)

  /** A server clock reading (time.Time), supplied by the caller. */
  type Timestamp = int

  /** A row of the users table. */
  datatype User = User(id: nat, name: string, email: string, age: int, passwordHash: string)

  /** The body of POST /users. */
  datatype UserInput = UserInput(name: string, email: string, age: int, password: string)

  /** The body of PUT /users/:id. */
  datatype UpdateUserInput = UpdateUserInput(name: string, email: string, age: int)

  /** The body of POST /users/:id/orders. */
  datatype OrderInput = OrderInput(product: string, quantity: int, price: Price)

  /** A row of the orders table. */
  datatype Order = Order(id: nat, userId: nat, product: string, quantity: int, price: Price, createdAt: Timestamp)

  /** The JSON object a user is written as: id, name, email and age. The
      password hash is tagged `json:"-"`, so this shape has no field for it. */
  datatype UserJson = UserJson(id: nat, name: string, email: string, age: int)

  function ToJson(u: User): (j: UserJson)
    ensures j.id == u.id && j.name == u.name && j.email == u.email && j.age == u.age
  {
    UserJson(u.id, u.name, u.email, u.age)
  }

  function ToJsonAll(users: seq<User>): (js: seq<UserJson>)
    ensures |js| == |users|
    ensures forall i :: 0 <= i < |users| ==> js[i] == ToJson(users[i])
  {
    seq(|users|, i requires 0 <= i < |users| => ToJson(users[i]))
  }

  /** Serialization never depends on the password hash. */
  lemma ToJsonIgnoresHash(u: User, hash: string)
    ensures ToJson(u.(passwordHash := hash)) == ToJson(u)
  {
  }
}
