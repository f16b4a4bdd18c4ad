/**
 User records, the replies the handlers send, and the pure rules the handlers
 follow: which create requests are rejected and with what message, how an
 update overlays a body on a stored record, and how the insertion order of
 ids gives the listing.
 */
module Users {
  import opened Json

  /** One stored user; `updatedAt` is absent until the first update. */
  datatype User = User(
    id: string,
    name: Value,
    email: Value,
    role: Value,
    createdAt: string,
    updatedAt: Option<string>)

  /** The JSON payload of a handler's reply. */
  datatype Payload =
    | Record(user: User)
    | Listing(users: seq<User>, count: nat)
    | Deleted(message: string, user: User)
    | Totals(totalUsers: nat)
    | Error(message: string)

  /** An HTTP status code and its payload. */
  datatype Reply = Reply(status: int, payload: Payload)

  const NotFound: Reply := Reply(404, Error("User not found"))
  const NoDataProvided: Reply := Reply(400, Error("No data provided"))
  const DeletedMessage: string := "User deleted successfully"

  /** The fields a create request must carry, in the order they are checked. */
  const RequiredFields: seq<string> := ["name", "email"]

  /** The fields an update request may overwrite, in the order they are visited. */
  const UpdatableFields: seq<string> := ["name", "email", "role"]

  /** The role a created user gets when the body names none. */
  const DefaultRole: Value := Str("user")

  // ---------------------------------------------------------------------------
  // Validation of a create request

  /** The index of the first of `fields` that `data` lacks, if any. */
  function FirstMissing(fields: seq<string>, data: map<string, Value>): (r: Option<nat>)
    ensures r.None? <==> forall i :: 0 <= i < |fields| ==> fields[i] in data
    ensures r.Some? ==> r.value < |fields| && fields[r.value] !in data
    ensures r.Some? ==> forall j :: 0 <= j < r.value ==> fields[j] in data
  {
    if fields == [] then None
    else if fields[0] !in data then Some(0)
    else match FirstMissing(fields[1..], data)
      case None => None
      case Some(i) => Some(i + 1)
  }

  /** The scan over the required fields, stopping at the first one missing. */
  method FindMissing(fields: seq<string>, data: map<string, Value>) returns (k: Option<nat>)
    ensures k == FirstMissing(fields, data)
  {
    for i := 0 to |fields|
      invariant forall j :: 0 <= j < i ==> fields[j] in data
    {
      if fields[i] !in data {
        return Some(i);
      }
    }
    return None;
  }

  /**
   The error a create request is rejected with, or `None` when it passes:
   the body is checked first, then `name`, then `email`.
   */
  function CreateError(body: Body): (r: Option<string>)
    ensures r == Some("No data provided") <==> NoData(body)
    ensures r == Some("Missing required field: name") <==>
      !NoData(body) && "name" !in body.value
    ensures r == Some("Missing required field: email") <==>
      !NoData(body) && "name" in body.value && "email" !in body.value
    ensures r.None? <==> !NoData(body) && "name" in body.value && "email" in body.value
  {
    if NoData(body) then Some("No data provided")
    else
      assert RequiredFields[0] == "name" && RequiredFields[1] == "email";
      assert "Missing required field: " + "name" == "Missing required field: name";
      assert "Missing required field: " + "email" == "Missing required field: email";
      match FirstMissing(RequiredFields, body.value)
      case None => None
      case Some(i) => Some("Missing required field: " + RequiredFields[i])
  }

  /** The record a successful create inserts. */
  function NewUser(data: map<string, Value>, id: string, now: string): (u: User)
    requires "name" in data && "email" in data
    ensures u.id == id && u.name == data["name"] && u.email == data["email"]
    ensures "role" in data ==> u.role == data["role"]
    ensures "role" !in data ==> u.role == Str("user")
    ensures u.createdAt == now && u.updatedAt == None
  {
    User(id, data["name"], data["email"],
         if "role" in data then data["role"] else DefaultRole,
         now, None)
  }

  // ---------------------------------------------------------------------------
  // Partial update

  predicate Updatable(f: string)
  {
    f in UpdatableFields
  }

  /** The value a record holds under one of the updatable field names. */
  function FieldValue(u: User, f: string): Value
    requires Updatable(f)
  {
    if f == "name" then u.name else if f == "email" then u.email else u.role
  }

  /** `user[f] = v` for one of the updatable field names. */
  function WithField(u: User, f: string, v: Value): (r: User)
    requires Updatable(f)
    ensures FieldValue(r, f) == v
    ensures forall g :: Updatable(g) && g != f ==> FieldValue(r, g) == FieldValue(u, g)
    ensures r.id == u.id && r.createdAt == u.createdAt && r.updatedAt == u.updatedAt
  {
    if f == "name" then u.(name := v)
    else if f == "email" then u.(email := v)
    else u.(role := v)
  }

  /**
   The record after the fields of `data` among name, email and role are
   written over it; no other key of `data` has an effect.
   */
  function Overlay(u: User, data: map<string, Value>): (r: User)
    ensures forall f :: Updatable(f) && f in data ==> FieldValue(r, f) == data[f]
    ensures forall f :: Updatable(f) && f !in data ==> FieldValue(r, f) == FieldValue(u, f)
    ensures r.id == u.id && r.createdAt == u.createdAt && r.updatedAt == u.updatedAt
  {
    u.(name := if "name" in data then data["name"] else u.name,
       email := if "email" in data then data["email"] else u.email,
       role := if "role" in data then data["role"] else u.role)
  }

  /** The loop over the updatable fields that copies those present in `data`. */
  method MergeFields(u: User, data: map<string, Value>) returns (v: User)
    ensures v == Overlay(u, data)
  {
    v := u;
    for i := 0 to |UpdatableFields|
      invariant v.id == u.id && v.createdAt == u.createdAt && v.updatedAt == u.updatedAt
      invariant forall j :: 0 <= j < i && UpdatableFields[j] in data ==>
        FieldValue(v, UpdatableFields[j]) == data[UpdatableFields[j]]
      invariant forall j :: 0 <= j < |UpdatableFields| && (i <= j || UpdatableFields[j] !in data) ==>
        FieldValue(v, UpdatableFields[j]) == FieldValue(u, UpdatableFields[j])
    {
      var f := UpdatableFields[i];
      if f in data {
        v := WithField(v, f, data[f]);
      }
    }
    assert FieldValue(v, UpdatableFields[0]) == v.name;
    assert FieldValue(v, UpdatableFields[1]) == v.email;
    assert FieldValue(v, UpdatableFields[2]) == v.role;
  }

  /** The stored record after a successful update stamped at time `now`. */
  function Updated(u: User, data: map<string, Value>, now: string): (r: User)
    ensures r.id == u.id && r.createdAt == u.createdAt
    ensures r.updatedAt == Some(now)
    ensures forall f :: Updatable(f) ==>
      FieldValue(r, f) == if f in data then data[f] else FieldValue(u, f)
  {
    Overlay(u, data).(updatedAt := Some(now))
  }

  /** Keys other than name, email and role in an update body change nothing. */
  lemma OverlayIgnoresOtherKeys(u: User, data: map<string, Value>, k: string, x: Value)
    requires !Updatable(k)
    ensures Overlay(u, data[k := x]) == Overlay(u, data)
  {
  }

  /** Sending the same update body twice gives the same fields as sending it once. */
  lemma OverlayIdempotent(u: User, data: map<string, Value>)
    ensures Overlay(Overlay(u, data), data) == Overlay(u, data)
  {
  }

  // ---------------------------------------------------------------------------
  // Insertion order

  predicate Distinct(s: seq<string>)
  {
    forall i, j :: 0 <= i < j < |s| ==> s[i] != s[j]
  }

  /** What is left after the head of a sequence without repetitions has none, and lacks the head. */
  lemma DistinctTail(s: seq<string>)
    requires s != []
    ensures Distinct(s) ==> Distinct(s[1..]) && s[0] !in s[1..]
  {
  }

  /** A sequence without repetitions has as many elements as its set of elements. */
  lemma {:induction false} DistinctSize(s: seq<string>)
    requires Distinct(s)
    ensures |set k | k in s| == |s|
  {
    if s != [] {
      DistinctTail(s);
      DistinctSize(s[1..]);
      assert (set k | k in s) == {s[0]} + (set k | k in s[1..]);
    }
  }

  /** The records of `users` listed in the order of `ids`. */
  function InOrder(users: map<string, User>, ids: seq<string>): (r: seq<User>)
    requires forall k :: k in ids ==> k in users
    ensures |r| == |ids|
    ensures forall i :: 0 <= i < |ids| ==> r[i] == users[ids[i]]
  {
    if ids == [] then [] else [users[ids[0]]] + InOrder(users, ids[1..])
  }

  /** A record inserted under a new id is listed after all the others. */
  lemma InOrderAppend(users: map<string, User>, ids: seq<string>, id: string, u: User)
    requires forall k :: k in ids ==> k in users
    requires id !in ids
    ensures InOrder(users[id := u], ids + [id]) == InOrder(users, ids) + [u]
  {
  }

  /** `s` with `x` taken out, the others kept in their order. */
  function Without(s: seq<string>, x: string): (r: seq<string>)
    ensures forall y :: y in r <==> y in s && y != x
    ensures Distinct(s) ==> Distinct(r)
    ensures Distinct(s) && x in s ==> |r| == |s| - 1
    ensures x !in s ==> r == s
  {
    if s == [] then []
    else if s[0] == x then DistinctTail(s); Without(s[1..], x)
    else DistinctTail(s); [s[0]] + Without(s[1..], x)
  }

  /** Taking a present id out of a sequence without repetitions splices it out where it stood. */
  lemma {:induction false} WithoutSplice(s: seq<string>, x: string, i: nat)
    requires Distinct(s)
    requires i < |s| && s[i] == x
    ensures Without(s, x) == s[..i] + s[i + 1..]
  {
    DistinctTail(s);
    if i == 0 {
      assert Without(s, x) == Without(s[1..], x) == s[1..];
    } else {
      var t := s[1..];
      assert t[i - 1] == x;
      WithoutSplice(t, x, i - 1);
      assert Without(s, x) == [s[0]] + (t[..i - 1] + t[i..]);
      assert [s[0]] + t[..i - 1] == s[..i];
      assert t[i..] == s[i + 1..];
    }
  }
}
