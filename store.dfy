/**
 The in-memory user store and its request handlers. The store maps ids to
 records and remembers the order in which ids were inserted, which is the
 order in which the listing returns the records.
 */
module Store {
  import opened Json
  import opened Users

  /** The two users every store starts with. */
  const John: User :=
    User("1", Str("John Doe"), Str("john@example.com"), Str("admin"), "2025-01-01T10:00:00Z", None)
  const Jane: User :=
    User("2", Str("Jane Smith"), Str("jane@example.com"), Str("user"), "2025-01-02T11:00:00Z", None)
  const SeedUsers: map<string, User> := map["1" := John, "2" := Jane]
  const SeedOrder: seq<string> := ["1", "2"]

  /** The number of ids in a sequence without repetitions that holds exactly the keys of a map. */
  lemma {:induction false} CountMatches(users: map<string, User>, order: seq<string>)
    requires Distinct(order)
    requires forall k :: k in order <==> k in users
    ensures |order| == |users|
  {
    DistinctSize(order);
    assert (set k | k in order) == users.Keys;
  }

  class UserStore {
    /** The records, keyed by id. */
    var users: map<string, User>
    /** The ids in the order they were inserted. */
    var order: seq<string>

    /** Every key is listed once, and every record is stored under its own id. */
    ghost predicate Valid()
      reads this
    {
      && Distinct(order)
      && (forall k :: k in order <==> k in users)
      && (forall k :: k in users ==> users[k].id == k)
    }

    /** The store as it is at start-up: the two seed users, "1" before "2". */
    constructor ()
      ensures Valid()
      ensures users == SeedUsers && order == SeedOrder
      ensures |users| == 2 && InOrder(users, order) == [John, Jane]
    {
      users := SeedUsers;
      order := SeedOrder;
      new;
      assert InOrder(users, order) == [John, Jane];
    }

    /** GET /api/users: every record in insertion order, with their number. */
    method GetUsers() returns (r: Reply)
      requires Valid()
      ensures r.status == 200
      ensures r.payload == Listing(InOrder(users, order), |users|)
      ensures r.payload.count == |r.payload.users|
    {
      CountMatches(users, order);
      r := Reply(200, Listing(InOrder(users, order), |users|));
    }

    /** GET /api/users/<id>: the record, or 404 exactly when the id is unknown. */
    method GetUser(id: string) returns (r: Reply)
      requires Valid()
      ensures r == NotFound <==> id !in users
      ensures id in users ==> r == Reply(200, Record(users[id])) && r.payload.user.id == id
    {
      if id !in users {
        return NotFound;
      }
      r := Reply(200, Record(users[id]));
    }

    /** GET /api/stats: the number of users, the same number the listing reports. */
    method GetStats() returns (r: Reply)
      requires Valid()
      ensures r == Reply(200, Totals(|users|))
      ensures r.payload.totalUsers == |InOrder(users, order)|
    {
      CountMatches(users, order);
      r := Reply(200, Totals(|users|));
    }

    /**
     POST /api/users: a body with name and email inserts a new record under
     `freshId`, stamped `now`; any other body is rejected and nothing changes.
     */
    method CreateUser(body: Body, freshId: string, now: string) returns (r: Reply)
      requires Valid()
      requires freshId !in users
      modifies this
      ensures Valid()
      ensures CreateError(body).Some? ==>
        && r == Reply(400, Error(CreateError(body).value))
        && users == old(users) && order == old(order)
      ensures CreateError(body).None? ==>
        && var u := NewUser(body.value, freshId, now);
        && r == Reply(201, Record(u))
        && users == old(users)[freshId := u]
        && order == old(order) + [freshId]
        && InOrder(users, order) == InOrder(old(users), old(order)) + [u]
      ensures |users| == |old(users)| + (if r.status == 201 then 1 else 0)
    {
      if NoData(body) {
        return NoDataProvided;
      }
      var missing := FindMissing(RequiredFields, body.value);
      if missing.Some? {
        return Reply(400, Error("Missing required field: " + RequiredFields[missing.value]));
      }
      var u := NewUser(body.value, freshId, now);
      InOrderAppend(users, order, freshId, u);
      users := users[freshId := u];
      order := order + [freshId];
      r := Reply(201, Record(u));
    }

    /**
     PUT /api/users/<id>: an unknown id is 404 before an empty body is 400;
     otherwise name, email and role present in the body are written over the
     record, which is stamped `now`.
     */
    method UpdateUser(id: string, body: Body, now: string) returns (r: Reply)
      requires Valid()
      modifies this
      ensures Valid()
      ensures id !in old(users) ==> r == NotFound && users == old(users) && order == old(order)
      ensures id in old(users) && NoData(body) ==>
        r == NoDataProvided && users == old(users) && order == old(order)
      ensures id in old(users) && !NoData(body) ==>
        && var u := Updated(old(users)[id], body.value, now);
        && r == Reply(200, Record(u))
        && users == old(users)[id := u]
        && order == old(order)
      ensures |users| == |old(users)|
    {
      if id !in users {
        return NotFound;
      }
      if NoData(body) {
        return NoDataProvided;
      }
      var user := MergeFields(users[id], body.value);
      user := user.(updatedAt := Some(now));
      users := users[id := user];
      r := Reply(200, Record(user));
    }

    /**
     DELETE /api/users/<id>: an unknown id is 404 and nothing changes;
     otherwise the record is removed and returned as it was.
     */
    method DeleteUser(id: string) returns (r: Reply)
      requires Valid()
      modifies this
      ensures Valid()
      ensures id !in old(users) ==> r == NotFound && users == old(users) && order == old(order)
      ensures id in old(users) ==>
        && r == Reply(200, Deleted(DeletedMessage, old(users)[id]))
        && r.payload.user.id == id
        && users == old(users) - {id}
        && order == Without(old(order), id)
        && |users| == |old(users)| - 1
    {
      if id !in users {
        return NotFound;
      }
      var deleted := users[id];
      CountMatches(users, order);
      users := users - {id};
      order := Without(order, id);
      CountMatches(users, order);
      r := Reply(200, Deleted(DeletedMessage, deleted));
    }
  }
}
