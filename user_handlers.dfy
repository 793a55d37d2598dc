/** The handlers of internal/handlers/user.go. Handlers that change the
    users table are methods on the shared store; GetUsers and GetUserByID
    only read it and are functions of the table's rows. */
module UserHandlers {

  import opened Wrappers
  import opened Seqs
  import opened Strconv
  import opened Models
  import opened Http
  import opened Database

  // ---------------------------------------------------------------- CreateUser

  /** POST /users. `input` is the bound JSON body (None when binding fails);
      `hashed` is what bcrypt returned for the plaintext password. */
  method CreateUser(db: Store, input: Option<UserInput>, hashed: string) returns (r: Response)
    requires db.Valid()
    modifies db
    ensures db.Valid()
    ensures db.orders == old(db.orders) && db.nextOrderId == old(db.nextOrderId)
    ensures input.None? ==>
      && r == Response(StatusBadRequest, ErrorJson("Invalid input"))
      && db.users == old(db.users) && db.nextUserId == old(db.nextUserId)
    ensures input.Some? && FindEmail(old(db.users), input.value.email).Some? ==>
      && r == Response(StatusBadRequest, ErrorJson("Email already exists"))
      && db.users == old(db.users) && db.nextUserId == old(db.nextUserId)
    ensures input.Some? && FindEmail(old(db.users), input.value.email).None? ==>
      var u := User(old(db.nextUserId), input.value.name, input.value.email, input.value.age, hashed);
      && db.users == old(db.users) + [u]
      && db.nextUserId == old(db.nextUserId) + 1
      && (forall k :: 0 <= k < |old(db.users)| ==> old(db.users)[k].id != u.id)
      && r == Response(StatusCreated, UserBody(UserJson(u.id, u.name, u.email, u.age)))
    ensures EmailsUnique(old(db.users)) ==> EmailsUnique(db.users)
  {
    if input.None? {
      return Response(StatusBadRequest, ErrorJson("Invalid input"));
    }
    var body := input.value;
    if FindEmail(db.users, body.email).Some? {
      return Response(StatusBadRequest, ErrorJson("Email already exists"));
    }
    var u := db.InsertUser(body.name, body.email, body.age, hashed);
    r := Response(StatusCreated, UserBody(UserJson(u.id, u.name, u.email, u.age)));
  }

  // ---------------------------------------------------------------- GetUsers

  /** The two conditional WHERE clauses: `age >= min` only when min > 0,
      `age <= max` only when max < 200. */
  predicate AgeBoundsHold(minAge: int, maxAge: int, age: int) {
    (minAge > 0 ==> age >= minAge) && (maxAge < 200 ==> age <= maxAge)
  }

  /** The rows both conditional WHERE clauses admit, in id order; with
      neither clause applied, the whole table. */
  function FilterByAge(users: seq<User>, minAge: int, maxAge: int): (r: seq<User>)
    ensures forall k :: 0 <= k < |r| ==> r[k] in users && AgeBoundsHold(minAge, maxAge, r[k].age)
    ensures forall k :: 0 <= k < |users| && AgeBoundsHold(minAge, maxAge, users[k].age) ==> users[k] in r
    ensures minAge <= 0 && maxAge >= 200 ==> r == users
  {
    var admitted := (u: User) => AgeBoundsHold(minAge, maxAge, u.age);
    if minAge <= 0 && maxAge >= 200 then
      FilterKeepsAll(users, admitted);
      Filter(users, admitted)
    else
      Filter(users, admitted)
  }

  /** A query parameter read as `v, _ := strconv.Atoi(c.DefaultQuery(key, default))`. */
  function QueryInt(query: map<string, string>, key: string, default: string): (v: int)
    ensures key !in query && Atoi(default).Ok? ==> v == Atoi(default).value
    ensures key in query && Atoi(query[key]).SyntaxError? ==> v == 0
    ensures key in query && Atoi(query[key]).Ok? ==> v == Atoi(query[key]).value
    ensures key in query && Atoi(query[key]).RangeError? ==> v == Atoi(query[key]).clamped
  {
    AtoiIgnoringError(DefaultQuery(query, key, default))
  }

  /** Go's int arithmetic on a 64-bit platform wraps modulo 2^64. */
  function WrapInt64(x: int): (w: int)
    ensures MinInt64 <= w <= MaxInt64
    ensures (x - w) % 0x1_0000_0000_0000_0000 == 0
    ensures MinInt64 <= x <= MaxInt64 ==> w == x
  {
    var m := x % 0x1_0000_0000_0000_0000;
    if m > MaxInt64 then m - 0x1_0000_0000_0000_0000 else m
  }

  /** The four parameters of GET /users: each is its default (1, 10, 0, 200)
      when absent, 0 when present but not a number, the clamped int64 bound
      when out of range, and its value otherwise. */
  function Page(query: map<string, string>): (page: int)
    ensures "page" !in query ==> page == 1
    ensures "page" in query && Atoi(query["page"]).SyntaxError? ==> page == 0
    ensures "page" in query && Atoi(query["page"]).Ok? ==> page == Atoi(query["page"]).value
    ensures "page" in query && Atoi(query["page"]).RangeError? ==> page == Atoi(query["page"]).clamped
  {
    DefaultsParse();
    QueryInt(query, "page", "1")
  }

  function Limit(query: map<string, string>): (limit: int)
    ensures "limit" !in query ==> limit == 10
    ensures "limit" in query && Atoi(query["limit"]).SyntaxError? ==> limit == 0
    ensures "limit" in query && Atoi(query["limit"]).Ok? ==> limit == Atoi(query["limit"]).value
    ensures "limit" in query && Atoi(query["limit"]).RangeError? ==> limit == Atoi(query["limit"]).clamped
  {
    DefaultsParse();
    QueryInt(query, "limit", "10")
  }

  function MinAge(query: map<string, string>): (minAge: int)
    ensures "min_age" !in query ==> minAge == 0
    ensures "min_age" in query && Atoi(query["min_age"]).SyntaxError? ==> minAge == 0
    ensures "min_age" in query && Atoi(query["min_age"]).Ok? ==> minAge == Atoi(query["min_age"]).value
    ensures "min_age" in query && Atoi(query["min_age"]).RangeError? ==> minAge == Atoi(query["min_age"]).clamped
  {
    DefaultsParse();
    QueryInt(query, "min_age", "0")
  }

  function MaxAge(query: map<string, string>): (maxAge: int)
    ensures "max_age" !in query ==> maxAge == 200
    ensures "max_age" in query && Atoi(query["max_age"]).SyntaxError? ==> maxAge == 0
    ensures "max_age" in query && Atoi(query["max_age"]).Ok? ==> maxAge == Atoi(query["max_age"]).value
    ensures "max_age" in query && Atoi(query["max_age"]).RangeError? ==> maxAge == Atoi(query["max_age"]).clamped
  {
    DefaultsParse();
    QueryInt(query, "max_age", "200")
  }

  /** `(page - 1) * limit`, evaluated in Go's int: congruent to the exact
      product modulo 2^64, and equal to it when it fits in an int64. */
  function Offset(query: map<string, string>): (off: int)
    ensures MinInt64 <= off <= MaxInt64
    ensures ((Page(query) - 1) * Limit(query) - off) % 0x1_0000_0000_0000_0000 == 0
    ensures MinInt64 <= (Page(query) - 1) * Limit(query) <= MaxInt64 ==> off == (Page(query) - 1) * Limit(query)
  {
    WrapInt64((Page(query) - 1) * Limit(query))
  }

  /** The rows the age filters admit, in id order: exactly the stored users
      within the bounds the query's min_age and max_age apply. */
  function Matching(users: seq<User>, query: map<string, string>): (r: seq<User>)
    ensures forall k :: 0 <= k < |r| ==> r[k] in users && AgeBoundsHold(MinAge(query), MaxAge(query), r[k].age)
    ensures forall k :: 0 <= k < |users| && AgeBoundsHold(MinAge(query), MaxAge(query), users[k].age) ==> users[k] in r
  {
    FilterByAge(users, MinAge(query), MaxAge(query))
  }

  /** GET /users: count the matching rows, then fetch one OFFSET/LIMIT window of them. */
  function GetUsers(users: seq<User>, query: map<string, string>): (r: Response)
    ensures r.status == StatusOK && r.body.UserPage?
    ensures r.body.page == Page(query) && r.body.limit == Limit(query)
    ensures Limit(query) >= 0 ==> |r.body.users| <= Limit(query)
    ensures r.body.total <= |users|
  {
    var matching := Matching(users, query);
    Response(StatusOK, UserPage(Page(query), Limit(query), |matching|,
                                ToJsonAll(Window(matching, Offset(query), Limit(query)))))
  }

  /** The four default strings of GetUsers read as the numbers they spell. */
  lemma DefaultsParse()
    ensures Atoi("1") == Ok(1) && Atoi("10") == Ok(10) && Atoi("0") == Ok(0) && Atoi("200") == Ok(200)
  {
    assert Decimal(1) == "1" && Decimal(10) == "10" && Decimal(0) == "0";
    assert Decimal(2) == "2" && Decimal(20) == "20" && Decimal(200) == "200";
    AtoiDecimal(1);
    AtoiDecimal(10);
    AtoiDecimal(0);
    AtoiDecimal(200);
  }

  /** With no query parameters the page is 1, the limit 10, no age filter
      applies, and the response lists the first ten users in id order. */
  lemma GetUsersDefaults(users: seq<User>, query: map<string, string>)
    requires "page" !in query && "limit" !in query && "min_age" !in query && "max_age" !in query
    ensures var r := GetUsers(users, query);
      && r.body.page == 1 && r.body.limit == 10
      && r.body.total == |users|
      && r.body.users == ToJsonAll(users[..if |users| < 10 then |users| else 10])
  {
    assert Page(query) == 1 && Limit(query) == 10 && MinAge(query) == 0 && MaxAge(query) == 200;
    assert Offset(query) == 0;
    var w := Window(users, 0, 10);
    assert w == users[..if |users| < 10 then |users| else 10];
  }

  /** A parameter that is present but not a number reads as 0, not as its default. */
  lemma GetUsersNonNumericIsZero(users: seq<User>, query: map<string, string>)
    requires "page" in query && Atoi(query["page"]).SyntaxError?
    requires "limit" in query && Atoi(query["limit"]).SyntaxError?
    ensures GetUsers(users, query).body.page == 0
    ensures GetUsers(users, query).body.limit == 0
  {
  }

  /** Every row of a window of the age-filtered rows is a stored row within the bounds. */
  lemma WindowWithinBounds(users: seq<User>, minAge: int, maxAge: int, offset: int, limit: int)
    ensures forall j :: j in ToJsonAll(Window(FilterByAge(users, minAge, maxAge), offset, limit)) ==>
      exists u :: u in users && ToJson(u) == j && AgeBoundsHold(minAge, maxAge, u.age)
  {
    var matching := FilterByAge(users, minAge, maxAge);
    var page := Window(matching, offset, limit);
    var js := ToJsonAll(page);
    forall j | j in js
      ensures exists u :: u in users && ToJson(u) == j && AgeBoundsHold(minAge, maxAge, u.age)
    {
      var i :| 0 <= i < |js| && js[i] == j;
      var u := page[i];
      assert u == matching[Skipped(|matching|, offset) + i];
      assert u in matching;
      assert ToJson(u) == j;
    }
  }

  /** Every listed user is a stored user that satisfies the bounds that applied. */
  lemma GetUsersWithinBounds(users: seq<User>, query: map<string, string>)
    ensures forall j :: j in GetUsers(users, query).body.users ==>
      exists u :: u in users && ToJson(u) == j && AgeBoundsHold(MinAge(query), MaxAge(query), u.age)
  {
    WindowWithinBounds(users, MinAge(query), MaxAge(query), Offset(query), Limit(query));
  }

  /** `GET /users?min_age=lo&max_age=hi` with 0 < lo and hi < 200 lists only
      users whose age lies in [lo, hi]. */
  lemma GetUsersAgeRange(users: seq<User>, query: map<string, string>, lo: nat, hi: nat)
    requires 0 < lo <= MaxInt64 && hi < 200
    requires "min_age" in query && query["min_age"] == Decimal(lo)
    requires "max_age" in query && query["max_age"] == Decimal(hi)
    ensures forall j :: j in GetUsers(users, query).body.users ==> lo <= j.age <= hi
  {
    AtoiDecimal(lo);
    AtoiDecimal(hi);
    GetUsersWithinBounds(users, query);
  }

  /** `total` counts every matching row: it depends on the filters only, never on page or limit. */
  lemma GetUsersTotalIgnoresPaging(users: seq<User>, query: map<string, string>, page: string, limit: string)
    ensures GetUsers(users, query["page" := page]["limit" := limit]).body.total
         == GetUsers(users, query).body.total
         == |Matching(users, query)|
  {
    var q := query["page" := page]["limit" := limit];
    assert MinAge(q) == MinAge(query) by { assert DefaultQuery(q, "min_age", "0") == DefaultQuery(query, "min_age", "0"); }
    assert MaxAge(q) == MaxAge(query) by { assert DefaultQuery(q, "max_age", "200") == DefaultQuery(query, "max_age", "200"); }
  }

  /** A window that starts inside the rows, by index. */
  lemma WindowAt(matching: seq<User>, off: nat, limit: nat)
    ensures var w := Window(matching, off, limit);
      && |w| == (if off >= |matching| then 0 else if |matching| - off < limit then |matching| - off else limit)
      && forall i :: 0 <= i < |w| ==> w[i] == matching[off + i]
  {
  }

  /** For page >= 1 and limit >= 1 (and no overflow), the response lists the
      matching rows from offset (page - 1) * limit on, at most `limit` of them. */
  lemma GetUsersPageIsSlice(users: seq<User>, query: map<string, string>, off: nat)
    requires Page(query) >= 1 && Limit(query) >= 1
    requires off == (Page(query) - 1) * Limit(query) <= MaxInt64
    ensures var matching, r := Matching(users, query), GetUsers(users, query);
      && Offset(query) == off
      && |r.body.users| == (if off >= |matching| then 0
                            else if |matching| - off < Limit(query) then |matching| - off
                            else Limit(query))
      && forall i :: 0 <= i < |r.body.users| ==> r.body.users[i] == ToJson(matching[off + i])
  {
    var matching, limit := Matching(users, query), Limit(query);
    assert Offset(query) == off;
    assert GetUsers(users, query).body.users == ToJsonAll(Window(matching, off, limit));
    WindowAt(matching, off, limit);
  }

  // ---------------------------------------------------------------- GetUserByID

  /** GET /users/:id. `raw` is what the database makes of a path id that is not an integer. */
  function GetUserByID(users: seq<User>, idParam: string, raw: RawCondition): (r: Response)
    ensures r.status == StatusOK || r == Response(StatusNotFound, ErrorJson("User not found"))
    ensures Atoi(idParam).Ok? ==>
      (r.status == StatusOK <==> exists k :: 0 <= k < |users| && users[k].id == Atoi(idParam).value)
    ensures Atoi(idParam).Ok? && r.status == StatusOK ==>
      exists k :: 0 <= k < |users| && users[k].id == Atoi(idParam).value && r.body == UserBody(ToJson(users[k]))
    ensures !Atoi(idParam).Ok? ==>
      (r.status == StatusOK <==> raw.Where? && exists k :: 0 <= k < |users| && raw.holds(users[k]))
    ensures r.status == StatusOK ==> exists k :: 0 <= k < |users| && r.body == UserBody(ToJson(users[k]))
  {
    match UserIndex(users, idParam, raw)
    case None => Response(StatusNotFound, ErrorJson("User not found"))
    case Some(k) => Response(StatusOK, UserBody(ToJson(users[k])))
  }

  /** A user appended with a fresh id is found again under that id, and the
      lookup returns its name, email and age. */
  lemma {:induction false} CreatedUserIsFound(users: seq<User>, u: User, raw: RawCondition)
    requires forall k :: 0 <= k < |users| ==> users[k].id < u.id
    requires u.id <= MaxInt64
    ensures GetUserByID(users + [u], Decimal(u.id), raw) == Response(StatusOK, UserBody(UserJson(u.id, u.name, u.email, u.age)))
  {
    AtoiDecimal(u.id);
    var s := users + [u];
    assert s[|users|] == u;
    var k := UserIndex(s, Decimal(u.id), raw).value;
    assert k == |users|;
  }

  /** The response never reflects a password hash: changing one stored hash
      changes nothing a lookup can return, unless a raw condition selects
      rows by that very hash. */
  lemma GetUserByIDIgnoresHash(users: seq<User>, k: nat, hash: string, idParam: string, raw: RawCondition)
    requires k < |users|
    requires raw.Where? ==> raw.holds(users[k].(passwordHash := hash)) == raw.holds(users[k])
    ensures GetUserByID(users[k := users[k].(passwordHash := hash)], idParam, raw) == GetUserByID(users, idParam, raw)
  {
    var changed := users[k := users[k].(passwordHash := hash)];
    if Atoi(idParam).Ok? {
      FirstIndexAgree(changed, users, (u: User) => u.id == Atoi(idParam).value);
    } else if raw.Where? {
      FirstIndexAgree(changed, users, raw.holds);
    }
  }

  // ---------------------------------------------------------------- UpdateUser

  /** GORM's Updates with a struct writes only its non-zero fields. */
  function ApplyUpdates(u: User, upd: UpdateUserInput): (v: User)
    ensures v.id == u.id && v.passwordHash == u.passwordHash
    ensures v.name == (if upd.name == "" then u.name else upd.name)
    ensures v.email == (if upd.email == "" then u.email else upd.email)
    ensures v.age == (if upd.age == 0 then u.age else upd.age)
  {
    u.(name := if upd.name == "" then u.name else upd.name,
       email := if upd.email == "" then u.email else upd.email,
       age := if upd.age == 0 then u.age else upd.age)
  }

  /** Sending the same update twice has the effect of sending it once. */
  lemma ApplyUpdatesIdempotent(u: User, upd: UpdateUserInput)
    ensures ApplyUpdates(ApplyUpdates(u, upd), upd) == ApplyUpdates(u, upd)
  {
  }

  /** PUT /users/:id: the lookup comes first, so a missing id is 404 whatever the body. */
  method UpdateUser(db: Store, idParam: string, raw: RawCondition, input: Option<UpdateUserInput>) returns (r: Response)
    requires db.Valid()
    modifies db
    ensures db.Valid()
    ensures db.nextUserId == old(db.nextUserId)
    ensures db.orders == old(db.orders) && db.nextOrderId == old(db.nextOrderId)
    ensures UserIndex(old(db.users), idParam, raw).None? ==>
      r == Response(StatusNotFound, ErrorJson("User not found")) && db.users == old(db.users)
    ensures UserIndex(old(db.users), idParam, raw).Some? && input.None? ==>
      r == Response(StatusBadRequest, ErrorJson("Invalid input")) && db.users == old(db.users)
    ensures UserIndex(old(db.users), idParam, raw).Some? && input.Some? ==>
      var k := UserIndex(old(db.users), idParam, raw).value;
      var v := ApplyUpdates(old(db.users)[k], input.value);
      && db.users == old(db.users)[k := v]
      && r == Response(StatusOK, UserBody(ToJson(v)))
  {
    var found := UserIndex(db.users, idParam, raw);
    if found.None? {
      return Response(StatusNotFound, ErrorJson("User not found"));
    }
    if input.None? {
      return Response(StatusBadRequest, ErrorJson("Invalid input"));
    }
    var v := ApplyUpdates(db.users[found.value], input.value);
    var u := db.UpdateUserAt(found.value, v.name, v.email, v.age);
    r := Response(StatusOK, UserBody(ToJson(u)));
  }

  // ---------------------------------------------------------------- DeleteUser

  /** DELETE /users/:id: removes that row only. Afterwards an integer id
      finds nothing, so a second delete of the same id is 404; a raw
      condition such as "true" selects the next matching row instead. */
  method DeleteUser(db: Store, idParam: string, raw: RawCondition) returns (r: Response)
    requires db.Valid()
    modifies db
    ensures db.Valid()
    ensures db.nextUserId == old(db.nextUserId)
    ensures db.orders == old(db.orders) && db.nextOrderId == old(db.nextOrderId)
    ensures UserIndex(old(db.users), idParam, raw).None? ==>
      r == Response(StatusNotFound, ErrorJson("User not found")) && db.users == old(db.users)
    ensures UserIndex(old(db.users), idParam, raw).Some? ==>
      && r == Response(StatusNoContent, NoBody)
      && db.users == RemoveAt(old(db.users), UserIndex(old(db.users), idParam, raw).value)
      && (Atoi(idParam).Ok? ==> UserIndex(db.users, idParam, raw).None?)
  {
    var found := UserIndex(db.users, idParam, raw);
    if found.None? {
      return Response(StatusNotFound, ErrorJson("User not found"));
    }
    RemovedIdIsGone(db.users, found.value);
    db.DeleteUserAt(found.value);
    r := Response(StatusNoContent, NoBody);
  }
}
