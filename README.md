# User store of the backend user service

This project models the in-memory user store of the backend user service,
`backend_service.py`. The store is a dictionary from id strings to user records.
Each record holds `id`, `name`, `email`, `role`, `created_at` and, after the
first update, `updated_at`. The request handlers list, look up, create,
partially update and delete records in that dictionary, and the statistics
handler reports how many there are.

Layout:

- `json.dfy` (module `Json`) holds the decoded JSON values and the request body.
  A body is a JSON object or absent. `NoData` is Python's `not data` on such a body.
- `users.dfy` (module `Users`) holds the user record, the replies, and the pure
  rules the handlers follow:
  - which create requests are rejected, in which order, and with what message;
  - how an update body is laid over a record;
  - how the insertion order of ids gives the listing order.
- `store.dfy` (module `Store`) holds the class `UserStore`. It keeps the
  dictionary as a `map` field and Python's dict insertion order as a `seq` of
  ids. Each handler is one method that returns a status code and a payload.
- `scenarios.dfy` (module `Scenarios`) holds sequences of requests against a
  fresh store or against any store, with the replies each must give.

The random id (`uuid.uuid4()`) and the clock (`datetime.utcnow()`) are
parameters: `freshId`, with the precondition that it is not already a key,
and `now`, an opaque timestamp string.

The handlers test `not data` (backend_service.py:75, :108), so an empty JSON
object `{}` is rejected with "No data provided" on create and on update, as an
absent body is.

## Model

| member | source | states |
|---|---|---|
| Store.UserStore.constructor | backend_service.py:23-38 | the store starts with exactly ids "1" and "2", holding the seed names, emails, roles and creation times, listed "1" then "2" |
| Store.UserStore.GetUsers | backend_service.py:50-57 | 200 with every record in insertion order; `count` is the number of records and equals the length of the list |
| Store.UserStore.GetUser | backend_service.py:59-67 | 404 "User not found" exactly when the id is absent; otherwise 200 with the stored record, whose id is the one asked for; the store is not changed |
| Store.UserStore.GetStats | backend_service.py:135-150 | `total_users` is the number of records, the same number the listing reports |
| Store.CountMatches | backend_service.py:55-56 | the insertion-order list has as many ids as the dictionary has keys |
| Users.DistinctSize | backend_service.py:55-56 | a list of ids without repetitions has as many elements as its set of ids |
| Users.InOrder | backend_service.py:55 | the listing has one record per listed id, the record stored under that id, in that order |
| Users.InOrderAppend | backend_service.py:94 | a record inserted under a new id is listed after all earlier records, which keep their order |
| Store.UserStore.CreateUser | backend_service.py:69-97 | a rejected body gives 400 with the error and changes nothing; otherwise the new record goes in under the fresh id, last in the listing; it copies name and email, takes role or "user", sets the creation time and no update time; the reply is 201 with it; the count grows by one and other records are untouched |
| Json.NoData | backend_service.py:75 | a body is "no data" exactly when it is absent or an object with no keys; any other body has at least one key |
| Users.NewUser | backend_service.py:85-92 | the new record has the fresh id, the body's name and email, the body's role or "user" when it has none, the creation time `now`, and no update time |
| Users.CreateError | backend_service.py:74-82 | "No data provided" exactly when the body is absent or empty; otherwise "Missing required field: name" exactly when name is absent; otherwise "Missing required field: email" exactly when email is absent; no error exactly when both are present |
| Users.FirstMissing | backend_service.py:79-82 | no index exactly when every required field is present; otherwise the index of a missing field, with every earlier field present |
| Users.FindMissing | backend_service.py:79-82 | the loop over the required fields stops at the same field as `FirstMissing` |
| Store.UserStore.UpdateUser | backend_service.py:99-120 | an unknown id gives 404 before an empty body gives 400, and neither changes the store; otherwise the record becomes `Updated` of itself, the reply is 200 with it, and every other record, the order and the count stay the same |
| Users.Overlay | backend_service.py:112-115 | each of name, email and role present in the body takes the body's value, each absent one keeps the old value, and id, creation time and update time are kept |
| Users.MergeFields | backend_service.py:112-115 | the loop over name, email and role gives the same record as `Overlay` |
| Users.WithField | backend_service.py:115 | assigning one of name, email or role sets that field and leaves the other fields alone |
| Users.Updated | backend_service.py:112-117 | id and creation time are kept, the update time is set to `now`, and each updatable field is the body's value if present, else the old one |
| Users.OverlayIgnoresOtherKeys | backend_service.py:113-115 | a body key other than name, email or role has no effect on the record |
| Users.OverlayIdempotent | backend_service.py:113-115 | laying the same body over a record twice gives the same fields as laying it once |
| Store.UserStore.DeleteUser | backend_service.py:122-133 | an absent id gives 404 and changes nothing; otherwise exactly that key is removed, the reply is 200 with "User deleted successfully" and the record as it was, its id is the one asked for, the count drops by one, and the other ids keep their order |
| Users.Without | backend_service.py:130 | removing an id keeps every other id and no repetition, and shortens a list that held it by one |
| Users.WithoutSplice | backend_service.py:130 | removing an id from a list without repetitions cuts it out where it stood, so the other ids keep their order |
| Scenarios.SeededListing | backend_service.py:23-57 | a fresh store lists John Doe then Jane Smith with count 2, and reports 2 users |
| Scenarios.CreateThenDelete | backend_service.py:50-133 | on a fresh store: count 2; create {"name": "A", "email": "a@x.com"} gives 201 with role "user"; count 3 with the new user last; delete gives 200 with that record; count 2 again; a lookup of the id then gives 404 |
| Scenarios.CreateWithoutEmail | backend_service.py:79-82 | a create body with a name but no email gives 400 "Missing required field: email" and the listing stays the two seed users |
| Scenarios.UpdateNameOnly | backend_service.py:99-120 | updating user "1" with only a name changes the name, sets the update time, keeps email, role and creation time, and a later lookup returns the same record |
| Scenarios.DeleteUnknownTwice | backend_service.py:122-128 | deleting an unknown id twice gives 404 both times, and the listing is unchanged |
| Scenarios.DeleteThenGet | backend_service.py:59-67 | on any store, after a successful delete, a lookup of the same id gives 404 |
| Scenarios.CreateThenDeleteRestores | backend_service.py:69-133 | on any store, deleting a user that was just created returns that record and leaves the dictionary and the order exactly as they were |

## Left out

- Flask routing, `jsonify`, CORS, logging and the 404/500 error handlers
  (backend_service.py:7-20, 152-166) are HTTP plumbing and are not modelled.
- The health endpoint and the service name, version, environment and timestamp in
  the statistics (backend_service.py:40-48, 142-147) are constants, the
  environment and the clock. Only `total_users` is modelled.
- `uuid.uuid4()` is the parameter `freshId`. Its precondition `freshId !in users`
  stands for the id being new. A colliding id, which Python would silently write
  over, is not modelled.
- `datetime.utcnow().isoformat()` is the opaque string parameter `now`.
- Request bodies are either a JSON object or absent. Python treats other JSON
  bodies differently: for example, `in` on a list or a
  string tests membership or a substring, not a key. Those bodies are not
  modelled.
- A request with malformed JSON or a non-JSON content type is rejected by
  `request.get_json()` itself, inside the handler (backend_service.py:74, :107).
  In `update_user` that call comes after the unknown-id check at
  backend_service.py:104, so such a request to an unknown id is still answered
  404. These framework rejections are not modelled; `None` in the model is a
  body that decoded to JSON `null`.
- JSON numbers are integers here; floating-point values are not modelled.
- The record dict is mutated in place by update, and the same dict object is
  also returned in the reply. The model replaces the map entry with a new
  record value. No reply can observe the aliasing, because each reply is
  serialized when it is sent.
- Concurrent requests share the dictionary with no lock. Only sequential calls
  are modelled.
- frontend_service.py is not part of this model. It makes HTTP calls, renders
  HTML and redirects, and holds no state of its own.
