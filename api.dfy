/**
 * The user routes of the HTTP API: each handler reads or updates the store and yields the
 * status code and JSON body it would send.  The store is the module-level `users` array,
 * here an object whose `users` field the handlers reassign.
 */
module Api {

  import opened Options
  import opened Validation
  import opened Users

  /** The JSON bodies the user routes send. */
  datatype Body =
    | UserBody(user: User)
    | UserList(users: seq<User>, total: int, timestamp: string)
    | Deleted(notice: string, user: User)  // the JSON `{message, user}`
    | ErrorBody(error: string, message: Option<string>)

  datatype Response = Response(status: int, body: Body)

  const UserNotFound := "User not found"
  const UserDeleted := "User deleted successfully"

  class Store {
    var users: seq<User>

    ghost predicate Valid()
      reads this
    {
      StoreInvariant(users)
    }

    /** The store as the process starts it, with its two seeded records. */
    constructor (firstCreatedAt: string, secondCreatedAt: string)
      ensures Valid() && users == Seed(firstCreatedAt, secondCreatedAt)
    {
      var seeded := Seed(firstCreatedAt, secondCreatedAt);
      assert StoreInvariant(seeded);
      users := seeded;
    }

    /** GET /api/users: every record in insertion order, with their count. */
    method ListUsers(now: string) returns (r: Response)
      ensures r.status == 200
      ensures r.body == UserList(users, |users|, now)
    {
      r := Response(200, UserList(users, |users|, now));
    }

    /** GET /api/users/:id: the first record with that id, or 404. */
    method GetUser(id: string) returns (r: Response)
      ensures var i := FirstIndex(users, ById(id));
        if i == -1 then r == Response(404, ErrorBody(UserNotFound, None))
        else r == Response(200, UserBody(users[i]))
    {
      var user := Find(users, ById(id));
      if user.None? {
        return Response(404, ErrorBody(UserNotFound, None));
      }
      r := Response(200, UserBody(user.value));
    }

    /**
     * POST /api/users, the validator followed by the handler.  `newId` and `now` stand for
     * the generated UUID and the creation timestamp.
     */
    method CreateUser(name: Option<string>, email: Option<string>, newId: string, now: string)
      returns (r: Response)
      requires Valid()
      requires FirstIndex(users, ById(newId)) == -1
      modifies this
      ensures Valid()
      ensures ValidateUser(name, email).Reject? ==>
        && r == Response(400, ErrorBody("Validation failed", Some(ValidateUser(name, email).message)))
        && users == old(users)
      ensures ValidateUser(name, email).Pass? && FirstIndex(old(users), ByEmail(email.value)) != -1 ==>
        && r == Response(409, ErrorBody("Conflict", Some("User with this email already exists")))
        && users == old(users)
      ensures ValidateUser(name, email).Pass? && FirstIndex(old(users), ByEmail(email.value)) == -1 ==>
        var u := User(newId, name.value, email.value, now);
        && r == Response(201, UserBody(u))
        && users == old(users) + [u]
    {
      var verdict := ValidateUser(name, email);
      if verdict.Reject? {
        return Response(400, ErrorBody("Validation failed", Some(verdict.message)));
      }
      var existing := Find(users, ByEmail(email.value));
      if existing.Some? {
        return Response(409, ErrorBody("Conflict", Some("User with this email already exists")));
      }
      var u := User(newId, name.value, email.value, now);
      AppendKeepsInvariant(users, u);
      users := users + [u];
      r := Response(201, UserBody(u));
    }

    /** DELETE /api/users/:id: take out the first record with that id and return it, or 404. */
    method DeleteUser(id: string) returns (r: Response)
      requires Valid()
      modifies this
      ensures Valid()
      ensures var i := FirstIndex(old(users), ById(id));
        if i == -1 then
          r == Response(404, ErrorBody(UserNotFound, None)) && users == old(users)
        else
          && r == Response(200, Deleted(UserDeleted, old(users)[i]))
          && users == RemoveAt(old(users), i)
    {
      var i := FindIndex(users, ById(id));
      if i == -1 {
        return Response(404, ErrorBody(UserNotFound, None));
      }
      var deleted := users[i];
      RemoveKeepsInvariant(users, i);
      users := RemoveAt(users, i);
      r := Response(200, Deleted(UserDeleted, deleted));
    }
  }

  /**
   * A client session against a freshly started store: create a user, list, delete the new
   * user, list again, and fetch the deleted id.
   */
  method CreateListDeleteSession(firstCreatedAt: string, secondCreatedAt: string, newId: string, now: string)
    returns (created: int, totalAfterCreate: int, deleted: int, totalAfterDelete: int, refetched: int)
    requires newId != "1" && newId != "2"
    ensures created == 201 && totalAfterCreate == 3
    ensures deleted == 200 && totalAfterDelete == 2
    ensures refetched == 404
  {
    var store := new Store(firstCreatedAt, secondCreatedAt);
    var name, email := "Test User", "test@example.com";
    ghost var seeded := store.users;
    ghost var u := User(newId, name, email, now);
    assert FirstIndex(seeded, ById(newId)) == -1 by {
      assert !Matches(seeded[0], ById(newId)) && !Matches(seeded[1], ById(newId));
    }
    assert FirstIndex(seeded, ByEmail(email)) == -1 by {
      assert !Matches(seeded[0], ByEmail(email)) && !Matches(seeded[1], ByEmail(email));
    }
    assert ValidateUser(Some(name), Some(email)) == Pass by {
      assert email[4] == '@';
    }
    var r := store.CreateUser(Some(name), Some(email), newId, now);
    assert r.status == 201 && store.users == seeded + [u];
    created := r.status;

    r := store.ListUsers(now);
    totalAfterCreate := r.body.total;

    AppendedIsFound(seeded, u);
    RemovedIdIsGone(store.users, newId);
    r := store.DeleteUser(newId);
    deleted := r.status;

    r := store.ListUsers(now);
    totalAfterDelete := r.body.total;

    r := store.GetUser(newId);
    refetched := r.status;
  }

}
