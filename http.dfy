/** The HTTP responses the handlers write and the query-string access they use. */
module Http {

  import opened Models

  const StatusOK: int := 200
  const StatusCreated: int := 201
  const StatusNoContent: int := 204
  const StatusBadRequest: int := 400
  const StatusUnauthorized: int := 401
  const StatusNotFound: int := 404
  const StatusInternalServerError: int := 500

  /** The JSON bodies written in the handlers and middleware. */
  datatype Body =
    | NoBody                                    // c.Status(204)
    | ErrorJson(error: string)                  // gin.H{"error": ...}
    | UserBody(user: UserJson)                  // a single user
    | UserPage(page: int, limit: int, total: nat, users: seq<UserJson>)
    | OrderBody(order: Order)                   // a single order
    | OrderList(orders: seq<Order>)             // the orders of one user

  datatype Response = Response(status: int, body: Body)

  /** gin's c.DefaultQuery: the parameter's value when it is present (even
      when empty), the default otherwise. */
  function DefaultQuery(query: map<string, string>, key: string, default: string): (v: string)
    ensures key in query ==> v == query[key]
    ensures key !in query ==> v == default
  {
    if key in query then query[key] else default
  }
}
