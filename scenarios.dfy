/**
 Request sequences against the store, with what each reply must be.
 */
module Scenarios {
  import opened Json
  import opened Users
  import opened Store

  /** The user that {"name": "A", "email": "a@x.com"} creates. */
  function UserA(id: string, now: string): User
  {
    User(id, Str("A"), Str("a@x.com"), Str("user"), now, None)
  }

  /** The seed users with one more inserted under a new id, and that id taken out again. */
  lemma SeedPlusOne(id: string, u: User)
    requires id != "1" && id != "2"
    ensures InOrder(SeedUsers[id := u], SeedOrder + [id]) == [John, Jane, u]
    ensures Without(SeedOrder + [id], id) == SeedOrder
    ensures SeedUsers[id := u] - {id} == SeedUsers
    ensures InOrder(SeedUsers, SeedOrder) == [John, Jane] && |SeedUsers| == 2
  {
  }

  /** A fresh store lists the two seed users, "1" then "2", and counts two. */
  method SeededListing() returns (listing: Reply, stats: Reply)
    ensures listing == Reply(200, Listing([John, Jane], 2))
    ensures stats == Reply(200, Totals(2))
  {
    var s := new UserStore();
    listing := s.GetUsers();
    stats := s.GetStats();
  }

  /** A fresh store after {"name": "A", "email": "a@x.com"} was created under `freshId`. */
  method CreateOnSeed(freshId: string, now: string) returns (s: UserStore, created: Reply)
    requires freshId != "1" && freshId != "2"
    ensures fresh(s) && s.Valid()
    ensures created == Reply(201, Record(UserA(freshId, now)))
    ensures s.users == SeedUsers[freshId := UserA(freshId, now)]
    ensures s.order == SeedOrder + [freshId]
    ensures |s.users| == 3
  {
    s := new UserStore();
    var body := Some(map["name" := Str("A"), "email" := Str("a@x.com")]);
    assert "name" in body.value && "email" in body.value && "role" !in body.value;
    created := s.CreateUser(body, freshId, now);
  }

  /** On the store `CreateOnSeed` leaves, deleting the new user restores the seed listing. */
  method DeleteFromPlusOne(s: UserStore, freshId: string, now: string)
    returns (deleted: Reply, after: Reply, lookup: Reply)
    requires freshId != "1" && freshId != "2"
    requires s.Valid()
    requires s.users == SeedUsers[freshId := UserA(freshId, now)]
    requires s.order == SeedOrder + [freshId]
    modifies s
    ensures deleted == Reply(200, Deleted("User deleted successfully", UserA(freshId, now)))
    ensures after == Reply(200, Listing([John, Jane], 2))
    ensures lookup == Reply(404, Error("User not found"))
  {
    SeedPlusOne(freshId, UserA(freshId, now));
    deleted := s.DeleteUser(freshId);
    assert s.users == SeedUsers && s.order == SeedOrder;
    after := s.GetUsers();
    lookup := s.GetUser(freshId);
  }

  /**
   Count 2, create {"name": "A", "email": "a@x.com"} (201, role "user"),
   count 3 with the new user last, delete it (200, the same record), count 2,
   and a later lookup is 404.
   */
  method CreateThenDelete(freshId: string, now: string)
    returns (before: Reply, created: Reply, during: Reply, deleted: Reply, after: Reply, lookup: Reply)
    requires freshId != "1" && freshId != "2"
    ensures before == Reply(200, Listing([John, Jane], 2))
    ensures created == Reply(201, Record(UserA(freshId, now)))
    ensures during == Reply(200, Listing([John, Jane, UserA(freshId, now)], 3))
    ensures deleted == Reply(200, Deleted("User deleted successfully", UserA(freshId, now)))
    ensures after == before
    ensures lookup == Reply(404, Error("User not found"))
  {
    var stats;
    before, stats := SeededListing();
    var s;
    s, created := CreateOnSeed(freshId, now);
    SeedPlusOne(freshId, UserA(freshId, now));
    during := s.GetUsers();
    deleted, after, lookup := DeleteFromPlusOne(s, freshId, now);
  }

  /** Creating without an email names the email; the store keeps its two users. */
  method CreateWithoutEmail(freshId: string, now: string) returns (created: Reply, after: Reply)
    requires freshId != "1" && freshId != "2"
    ensures created == Reply(400, Error("Missing required field: email"))
    ensures after == Reply(200, Listing([John, Jane], 2))
  {
    var s := new UserStore();
    var body := Some(map["name" := Str("A"), "role" := Str("admin")]);
    assert "name" in body.value && "email" !in body.value;
    created := s.CreateUser(body, freshId, now);
    after := s.GetUsers();
  }

  /** Updating user "1" with only a name changes the name, stamps the time and keeps the rest. */
  method UpdateNameOnly(now: string) returns (updated: Reply, fetched: Reply)
    ensures updated == Reply(200, Record(User("1", Str("X"), Str("john@example.com"), Str("admin"),
                                               "2025-01-01T10:00:00Z", Some(now))))
    ensures fetched == updated
  {
    var s := new UserStore();
    var body := Some(map["name" := Str("X")]);
    assert "email" !in body.value && "role" !in body.value;
    updated := s.UpdateUser("1", body, now);
    assert Updatable("name") && Updatable("email") && Updatable("role") by {
      assert UpdatableFields == ["name", "email", "role"];
    }
    fetched := s.GetUser("1");
  }

  /** Deleting an unknown id twice is 404 both times and changes nothing. */
  method DeleteUnknownTwice(id: string) returns (first: Reply, second: Reply, after: Reply)
    requires id != "1" && id != "2"
    ensures first == NotFound && second == NotFound
    ensures after == Reply(200, Listing([John, Jane], 2))
  {
    var s := new UserStore();
    first := s.DeleteUser(id);
    second := s.DeleteUser(id);
    after := s.GetUsers();
  }

  /** On any store, a delete that succeeds is followed by 404 for the same id. */
  method DeleteThenGet(s: UserStore, id: string) returns (deleted: Reply, lookup: Reply)
    requires s.Valid()
    requires id in s.users
    modifies s
    ensures deleted == Reply(200, Deleted(DeletedMessage, old(s.users)[id]))
    ensures lookup == NotFound
  {
    deleted := s.DeleteUser(id);
    lookup := s.GetUser(id);
  }

  /** Removing a key that was just inserted gives back the map as it was. */
  lemma InsertThenRemove(m: map<string, User>, k: string, v: User)
    requires k !in m
    ensures m[k := v] - {k} == m
  {
  }

  /** On any store, deleting a user just created puts the store back as it was. */
  method CreateThenDeleteRestores(s: UserStore, body: Body, freshId: string, now: string)
    returns (created: Reply, deleted: Reply)
    requires s.Valid()
    requires freshId !in s.users
    requires CreateError(body).None?
    modifies s
    ensures created == Reply(201, Record(NewUser(body.value, freshId, now)))
    ensures deleted == Reply(200, Deleted(DeletedMessage, NewUser(body.value, freshId, now)))
    ensures s.users == old(s.users) && s.order == old(s.order)
  {
    ghost var users, order := s.users, s.order;
    ghost var u := NewUser(body.value, freshId, now);
    created := s.CreateUser(body, freshId, now);
    assert s.users == users[freshId := u] && s.order == order + [freshId];
    deleted := s.DeleteUser(freshId);
    InsertThenRemove(users, freshId, u);
    assert s.order == order by {
      WithoutSplice(order + [freshId], freshId, |order|);
      assert (order + [freshId])[..|order|] == order;
    }
  }
}
