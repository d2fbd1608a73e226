/** The `isAdmin` middleware: a chain of early returns over the request's
    user claim and the one `users` row it looks up. */
module AdminGate {
  import opened Common
  import opened Tables

  /** Either `next()` is called or the request is answered with a status
      and message. */
  datatype GateResult = Next | Deny(status: int, message: string)

  /** The decision. `lookupFails` stands for the `SELECT is_admin` query
      throwing. */
  function IsAdmin(user: Option<Claim>, users: map<int, User>, lookupFails: bool): (r: GateResult)
    ensures !HasUserId(user) ==> r == Deny(Unauthorized, "Unauthorized")
    ensures HasUserId(user) && lookupFails ==> r == Deny(ServerError, "Server error")
    ensures HasUserId(user) && !lookupFails && user.value.id.value !in users ==>
      r == Deny(NotFound, "User not found")
    ensures (HasUserId(user) && !lookupFails && user.value.id.value in users &&
             users[user.value.id.value].isAdmin == 0) ==>
      r == Deny(Forbidden, "Access denied. Admin privileges required.")
    ensures r.Next? <==>
      HasUserId(user) && !lookupFails && user.value.id.value in users &&
      users[user.value.id.value].isAdmin != 0
  {
    if !HasUserId(user) then Deny(Unauthorized, "Unauthorized")
    else if lookupFails then Deny(ServerError, "Server error")
    else
      var id := user.value.id.value;
      if id !in users then Deny(NotFound, "User not found")
      else if users[id].isAdmin == 0 then Deny(Forbidden, "Access denied. Admin privileges required.")
      else Next
  }

  /** The 401 answer comes before any lookup: it depends neither on the
      table nor on whether the query would fail. */
  lemma UnauthorizedBeforeLookup(user: Option<Claim>, users: map<int, User>, users': map<int, User>,
                                 fails: bool, fails': bool)
    requires !HasUserId(user)
    ensures IsAdmin(user, users, fails) == IsAdmin(user, users', fails')
  {
  }

  /** Only the caller's own row matters: two tables that agree on it give
      the same decision. */
  lemma OnlyCallerRowMatters(user: Option<Claim>, users: map<int, User>, users': map<int, User>, fails: bool)
    requires HasUserId(user)
    requires var id := user.value.id.value;
      (id in users <==> id in users') && (id in users ==> users[id].isAdmin == users'[id].isAdmin)
    ensures IsAdmin(user, users, fails) == IsAdmin(user, users', fails)
  {
  }
}
