# User registry of the EcommerceSIDHAA backend

This project models the registration and login endpoints of the EcommerceSIDHAA
Flask backend. `POST /register` checks that the JSON body carries `username`,
`email` and `password`. It refuses a username that is already stored, then an
email that is already stored, in that order. Otherwise it stores one new user
with a salted password hash. `POST /login` checks that the body carries `email`
and `password`. It looks up the first user with that email and checks the
password against the stored hash. An unknown email and a wrong password give
the same 401 response.

Modules:

- `Credentials` (credentials.dfy): the salted hash written by `set_password`
  and the check done by `check_password`.
- `Requests` (requests.dfy): request bodies as optional string maps, responses
  as a status code and a message, and the presence guard both routes apply.
- `Routes` (routes.dfy): the user table. It holds the `filter_by(...).first()`
  lookup, the reference outcome of a registration, the `UserStore` class whose
  `Register` method appends to the table, the `Login` function over the table,
  and the lemmas that relate several requests.

The table is a `seq<User>` field that `Register` reassigns. `Login` reads the
table and changes nothing, so it is a function of the table's contents. The
object invariant `Valid()` says that no two stored users share a username and
no two share an email; registration keeps it.

## Model

| member | source | states |
|---|---|---|
| Routes.Values | EcommerceSIDHAA/backend/app/routes.py:11-15 | a value is among a column's stored values exactly when some stored user has it in that column |
| Routes.FilterFirst | EcommerceSIDHAA/backend/app/routes.py:11-15 | the lookup finds a row exactly when some stored user has that value in the column, and the row it finds is the first such user |
| Routes.RegisterOutcome | EcommerceSIDHAA/backend/app/routes.py:6-22 | 400 "Missing data" exactly when `get_json()` gives None (a JSON `null` body), the body is an empty object, or it lacks one of the three keys; 400 "Username already exists" exactly when the username is stored; 400 "Email already exists" exactly when the username is new and the email is stored; 201 exactly when both are new; every refusal leaves the table unchanged; success appends exactly one user with the given username, email and the hash of the password, and keeps every earlier user |
| Routes.UserStore.Register | EcommerceSIDHAA/backend/app/routes.py:6-22 | the guard chain over the stored table answers and updates the table exactly as the reference outcome says, and keeps usernames and emails unique |
| Routes.UserStore.constructor | EcommerceSIDHAA/backend/test_api.py:13 | a fresh store is empty and satisfies the uniqueness invariant |
| Routes.Login | EcommerceSIDHAA/backend/app/routes.py:26-36 | 400 "Missing data" exactly when `get_json()` gives None (a JSON `null` body), the body is an empty object, or it lacks `email` or `password`; 200 "Login successful" exactly when the first user with that email accepts the password; 401 "Invalid credentials" otherwise, the same response for an unknown email and for a wrong password |
| Routes.RegisterKeepsUnique | EcommerceSIDHAA/backend/app/routes.py:11-20 | from a table with unique usernames and unique emails, every registration outcome leaves a table with unique usernames and unique emails |
| Routes.UsernameCheckedFirst | EcommerceSIDHAA/backend/app/routes.py:11-15 | when both the username and the email collide, the username message is returned and the table is unchanged |
| Routes.LoginSucceedsIff | EcommerceSIDHAA/backend/app/routes.py:31-36 | on a table with unique emails, login succeeds exactly when some stored user has the email and accepts the password |
| Routes.LoginAfterRegister | EcommerceSIDHAA/backend/app/routes.py:17-36 | after a successful registration, a login with the same email and password returns 200 "Login successful" |
| Routes.WrongPasswordAfterRegister | EcommerceSIDHAA/backend/app/routes.py:31-34 | after a successful registration, a login with the same email and a different password returns 401 "Invalid credentials" |
| Routes.DuplicateRegistration | EcommerceSIDHAA/backend/app/routes.py:11-15 | after a successful registration, registering the same username again is refused with the username message, and registering a new username with the same email is refused with the email message; neither changes the table |
| Credentials.Hash | EcommerceSIDHAA/backend/app/routes.py:18 | the stored hash records the salt it was made with, accepts the password it was made from, and accepts no other password |
| Credentials.CheckHash | EcommerceSIDHAA/backend/test_api.py:96 | a password is accepted by its own hash under any salt |
| Credentials.CheckRejectsOther | EcommerceSIDHAA/backend/test_api.py:96-97 | a hash accepts exactly the password it was made from |

## Left out

- Password hashing: bcrypt lives in a models file that is not part of this model. `Credentials.DeriveKey` stands in for its key derivation: it returns the password itself, so the model stores the plaintext, and it is idealised as injective in the password. Salt randomness is a parameter of `Register`, and the work factor is not modelled.
- Credentials.CheckRejectsOther: holds only under the injective idealisation. bcrypt reads only the first 72 bytes of a password: older versions truncate silently, so two passwords sharing those bytes both pass `check_password`; bcrypt 5 and later raise an error on a longer password, which `register` would answer with status 500. Neither behaviour is modelled.
- Credentials.Hash: its promise that no other password is accepted holds only under the same idealisation, for the same 72-byte reason.
- Routes.RegisterOutcome: an empty password is modelled as a successful registration. Flask-Bcrypt refuses to hash an empty password, so `set_password` raises, the request ends with status 500, and no row is stored (the add and commit are never reached). Errors raised inside the hashing library are not modelled, and the same holds for `Routes.UserStore.Register`.
- Routes.Login: with bcrypt 5 or later, a login password longer than 72 bytes makes `check_password` raise, and the request ends with status 500 rather than the 401 the model gives. Errors raised inside the hashing library are not modelled.
- Routes.WrongPasswordAfterRegister: holds only under the same idealisation; with silent truncation, a different password sharing the first 72 bytes would log in.
- Users' database ids: the routes never read them.
- Flask request parsing: a body that is not a JSON object, and values that are not strings, are not modelled. A body is either None (what `get_json()` gives for a JSON `null` body) or a map from keys to strings. Flask itself refuses a missing, non-JSON or undecodable body with its own 400 or 415 response before the route runs; that refusal is not modelled.
- Routes.FilterFirst: `filter_by(...).first()` has no ORDER BY, so SQL does not promise which matching row it returns; the model takes the first in insertion order, which is what a SQLite rowid scan gives. The choice matters only when values repeat, which the uniqueness invariant rules out (see `Routes.LoginSucceedsIff`).
- Database sessions, commit and rollback, any unique constraints the models file may declare, and concurrent requests: the table is one sequential in-memory sequence.
- A login token: `utils.py:7` defines `generate_token`, but `login` returns only the message and status 200 (`routes.py:36`), and the model follows the code.
- Profile update, password change, products, cart, checkout and order history: no route for them is defined in `routes.py`.
- JSON Web Token helpers in `utils.py` and the application wiring in `__init__.py`: they are library wrappers, clock reads and configuration.
