# User service core, modelled in Dafny

This project models the logic of a small Express service that keeps "user" records in an
in-memory array: the `validateUser` middleware in front of `POST /api/users`, the `users`
store with its two seeded records, and the handlers for listing, fetching, creating and
deleting users, plus the catch-all "route not found" answer. Each handler is a method that
returns the status code and JSON body it would send instead of writing to a response object.

Layout:

- `options.dfy`: `Option`, used for absent request fields and for searches that find nothing.
- `validation.dfy`: the validator. A body field is `None` when absent or `null` and `Some(s)`
  when it is a string. JavaScript's `!field` holds exactly for `None` and `Some("")`.
- `users.dfy`: the `User` record and the searches the handlers run. `FirstIndex` is the
  reference definition. `FindIndex` is the loop behind `findIndex`.
  `Find` models `find`: it calls `FindIndex` and returns the record at the index found.
  `RemoveAt` models `splice(k, 1)`. `StoreInvariant` says ids are distinct, emails are
  distinct, and every stored record has a non-empty name and an email with an `@`. The file
  also holds the lemmas that each update keeps that invariant.
- `api.dfy`: the `Store` class, whose `users` field stands for the module-level array. Its
  handler methods reassign that field. The file ends with a client session: start, create,
  list, delete, list, fetch again.
- `routes.dfy`: the catch-all 404 answer.

The generated UUID and the `new Date().toISOString()` timestamps are parameters: `newId` and
`now` for `CreateUser`, one timestamp per seeded record for the constructor, and the response
`timestamp` for `ListUsers`. `CreateUser` requires that `newId` is not the id of a stored
record. The service never checks this; it relies on UUIDs being fresh.

The validator's messages are the ones `app/app.js` sends.

## Model

| member | source | states |
|---|---|---|
| `Validation.Includes` | app/app.js:76 | `email.includes("@")`: true exactly when some position of the string holds the character |
| `Validation.ValidateUser` | app/app.js:66-84 | rejects with "Name and email are required" exactly when a field is absent or empty; otherwise rejects with "Invalid email format" exactly when the email has no `@`; passes exactly when both fields are non-empty and the email holds an `@` |
| `Users.FirstIndex` | app/app.js:171 | reference search: -1 exactly when no record matches; otherwise the index of a matching record with no match before it |
| `Users.FindIndex` | app/app.js:171 | the `findIndex` scan returns the index `FirstIndex` specifies: the first match, or -1 |
| `Users.Find` | app/app.js:120-141 | the `find` calls at lines 120 and 141 (by id and by email): the search returns nothing exactly when no record matches, and otherwise returns the first matching record |
| `Users.RemoveAt` | app/app.js:178 | `splice(k, 1)`: length drops by one, elements before `k` stay where they were, elements after `k` move down one place |
| `Users.RemoveAtTakesOne` | app/app.js:178 | the removal takes out one occurrence of the element at `k` and nothing else (multiset equation) |
| `Users.Seed` | app/app.js:13-26 | the two seeded records satisfy the store invariant; ids "1" and "2" are at positions 0 and 1 |
| `Users.AppendKeepsInvariant` | app/app.js:141-157 | appending a record that passed validation, with an email that is not yet stored and a fresh id, keeps ids distinct, emails distinct and records well-formed |
| `Users.RemoveKeepsInvariant` | app/app.js:171-178 | removing any one record keeps the store invariant |
| `Users.RemovedIdIsGone` | app/app.js:171-178 | when ids are distinct, no record has the id after the record with that id is removed, so a later fetch answers 404 |
| `Users.AppendedIsFound` | app/app.js:150-157 | a record appended under a fresh id is the one a later search for that id finds, at the end of the array |
| `Api.Store.constructor` | app/app.js:13-26 | the store starts with exactly the two seeded records and satisfies its invariant |
| `Api.Store.ListUsers` | app/app.js:102-109 | answers 200 with every record in insertion order and `total` equal to the number of records; the store is not changed |
| `Api.Store.GetUser` | app/app.js:117-128 | answers 200 with the first record whose id matches, or 404 "User not found" when there is none; the store is not changed |
| `Api.Store.CreateUser` | app/app.js:136-160 | on a validation failure answers 400 with the validator's message and leaves the store unchanged; on a taken email answers 409 "Conflict" and leaves the store unchanged; otherwise answers 201 with a record carrying the given name and email and appends exactly that record; the invariant is kept in every case |
| `Api.Store.DeleteUser` | app/app.js:168-181 | unknown id: answers 404 and leaves the store unchanged; known id: answers 200 with the record at the first matching index, and the store is the old one with exactly that element removed; the invariant is kept |
| `Api.CreateListDeleteSession` | app/app.js:102-181 | from the seeded store: create answers 201, the list total is then 3, delete of the new id answers 200, the total is back to 2, and fetching the deleted id answers 404 |
| `Routes.RouteNotFound` | app/app.js:189-194 | answers 404 with error "Not found" and a message "Route <method> <path> not found" from which the method and the path can be read back at fixed positions |

## Left out

- Express and morgan setup, JSON body parsing, route dispatch and `res.status().json()`
  (app/app.js:1-10, 189, 198): a handler's answer is a returned `Response` value instead.
- The `logger` (app/app.js:29-51): console output with wall-clock timestamps; it does not
  affect any answer.
- `GET /health` (app/app.js:88-99): it only reports process uptime, configuration and the clock.
- The error-handling middleware and the `catch` branches that answer 500 (app/app.js:54-63,
  110-113, 129-132, 161-164, 182-185). They exist for runtime exceptions. With typed string
  fields, none can be raised in the model.
- Request fields that are JSON values other than strings. A number or boolean `name` is judged
  by JavaScript truthiness. A non-string `email` makes `.includes` throw (a 500) or, for an
  array, tests array membership. The model's fields are `Option<string>`.
- `uuidv4()` and `new Date().toISOString()` (app/app.js:18, 24, 151, 154): foreign calls,
  taken as parameters.
- Api.Store.CreateUser: requires only that the new id differs from every id now stored. The
  stronger rule that ids are never reused, even after a deletion, depends on UUID generation
  and is not modelled.
- Server start, signal handling and graceful shutdown with its 10-second forced exit
  (app/app.js:200-231): timers, concurrency and `process.exit`, with no store state involved.
- Concurrent requests: each handler runs to completion as one atomic step, which matches
  the single-threaded event loop the service runs on.
