# Inventory Management API — session authentication and user administration

This project models the core of the `packages/api` server of the inventory
management application in Dafny. The server is a Hapi application backed by
two database tables, `user` and `session`. The model covers:

- the cookie strategy's `validateFunc`. It deletes every expired session,
  looks up the cookie's session, clears the cookie when that session is gone,
  and derives the scope list `['user', 'user-<id>', role]`;
- the route guards that use that scope list (`mode: 'try'`, the default
  `required` mode, and `scope: ADMIN`);
- `/register`, `/login` and `/me`;
- the `/users` routes: the paginated listing, creation, the four update
  routes and deletion;
- `createPaginationObject`, which builds the `self`/`first`/`prev`/`next`/`last`
  links of a listing page.

The two tables are the fields of the class `Store.Db`, maps from id to row.
`Db.Valid()` holds the constraints the database keeps:

- every row is stored under its own id;
- `user.email` is unique;
- every session references an existing user.

The handlers that write to the database (`validateFunc`, `/register`,
`/login`, `POST /users`, the four update routes and `DELETE /users/{id}`) are
methods that change `Db`; all but `validateFunc` return a `Reply`. A reply is
either a value or a `Failure`, which stands for the HTTP error the handler
throws through Boom. The contract of each of these gives the reply and the
new tables in every branch. The two read-only handlers are functions of the
tables: `/me` is `AuthRoute.Me`, which returns an `Option`, and `GET /users`
is the ghost function `UsersRoutes.GetUsers`, which returns a `UsersReply`.

Some things the server gets from outside are passed in as parameters instead:

- bcrypt's `hash` and `compare` and the zxcvbn `score` come in a
  `Passwords.Kit`;
- the clock is `now`, in milliseconds;
- fresh cuid and session ids are parameters that must not already be keys.

The user listing is a ghost function, `UsersRoutes.GetUsers`. It is defined
through `Ordered`, the rows sorted by e-mail. Each row of a page is pinned
down by its `Rank`: the number of other rows whose e-mail sorts before it.

In these places the code's behaviour is easy to misread; the model follows the code:

- The sweep deletes sessions with `validUntil < now`. A session is therefore
  still accepted at the exact millisecond `validUntil == now`
  (`AuthPlugin.AuthenticatesLiveSession`).
- `validateFunc` does not check that the session's user exists. The model
  relies on the foreign key (`SessionsWellFormed`) for that.
- The strength check passes only the password to zxcvbn, with no user
  context such as the e-mail.
- Ids are generated once. There is no retry when an id collides.
- `/register` checks password strength before the e-mail conflict, but
  `POST /users` checks the conflict first. Both orders are kept.
- `UpdateUserPartialRoute` is the `PUT /users/{id}` route and takes the full
  payload. `UpdateUserRoute` is the `PATCH` route and takes the partial
  payload. The model keeps the source's names.
- Every update route looks up the supplied e-mail among all rows, the
  caller's own row included. Re-sending one's own e-mail is therefore a
  conflict (`UsersRoutes.OwnEmailConflicts`).
- The `next` link appears whenever there is more than one page, even on the
  last page (`UsersFunctions.NextOnLastPage`).

## Model

| member | source | states |
|---|---|---|
| Store.View | packages/api/src/plugins/auth/constants.ts:3-17 | a session's included user carries every column of the row except the password, unchanged |
| Store.EmailTaken | packages/api/src/plugins/auth/auth.route.ts:29-33 | `findUnique({ where: { email } })` finds a row exactly when the e-mail is among the stored e-mails |
| Passwords.Kit.StrongEnough | packages/api/src/plugins/auth/auth.functions.ts:3-6 | a password is strong enough exactly when its zxcvbn score is at least 3 |
| Store.UserWithEmail | packages/api/src/plugins/auth/auth.route.ts:51-55 | the row `findUnique({ where: { email } })` returns is stored under its id, holds that e-mail, and is the only row that does |
| Store.Sweep | packages/api/src/plugins/auth/auth.plugin.ts:51-53 | the session table after `deleteMany(validUntil < now)`: a sub-map of the old one with the same rows, holding no expired session and every unexpired one |
| Store.SweepIdempotent | packages/api/src/plugins/auth/auth.plugin.ts:51-53 | a second sweep at the same instant deletes nothing more |
| Store.DropSessionsOf | packages/api/src/plugins/users/users.routes.ts:289 | the session table after a user row is deleted: exactly the sessions of other users survive, unchanged |
| AuthPlugin.Scope | packages/api/src/plugins/auth/auth.plugin.ts:66 | the scope list has exactly three entries |
| AuthPlugin.ScopeNamesOnlyOwner | packages/api/src/plugins/auth/auth.plugin.ts:66 | `user-<x>` is in a user's scope list if and only if x is that user's id |
| AuthPlugin.ScopeGrantsAdminIffAdmin | packages/api/src/plugins/auth/auth.plugin.ts:66 | the scope list contains `ADMIN` if and only if the user's role is ADMIN |
| AuthPlugin.CarriesId | packages/api/src/plugins/auth/auth.plugin.ts:47-49 | validation goes on only with a request and a non-empty session id; a missing request, a missing id or an empty id stops it |
| AuthPlugin.Lookup | packages/api/src/plugins/auth/auth.plugin.ts:55-68 | the lookup is valid if and only if the id is in the table; the credentials hold that session row, its user without the password, and the scope list of that user's id and role |
| AuthPlugin.Validate | packages/api/src/plugins/auth/auth.plugin.ts:46-69 | with no session id or no request: invalid, no cookie cleared, nothing deleted; otherwise the session table becomes the sweep of the old one, the answer is the lookup in the swept table, the cookie is cleared exactly when the answer is invalid, and a valid answer's session is unexpired and still stored; the user table never changes |
| AuthPlugin.NeverAuthenticatesExpired | packages/api/src/plugins/auth/auth.plugin.ts:51-64 | an expired session is never authenticated, because the sweep runs before the lookup |
| AuthPlugin.AuthenticatesLiveSession | packages/api/src/plugins/auth/auth.plugin.ts:51-68 | a session with `validUntil >= now` is authenticated, with its own row as credentials |
| AuthPlugin.Admits | packages/api/src/plugins/auth/auth.plugin.ts:73 | a route in the default `required` mode never admits an unauthenticated request |
| AuthPlugin.AdminRoutesAdmitOnlyAdmins | packages/api/src/plugins/users/users.routes.ts:28 | an `ADMIN`-scoped route admits a request if and only if its session exists, is unexpired and belongs to an ADMIN user |
| AuthRoute.Registered | packages/api/src/plugins/auth/auth.route.ts:37 | the inserted row has the given id, e-mail and digest, role USER, and is not approved |
| AuthRoute.Register | packages/api/src/plugins/auth/auth.route.ts:21-40 | weak password: `400 TOO_EASY` and nothing changes; otherwise a taken e-mail: `409` and nothing changes; otherwise exactly one row is added, holding the hash of the password; sessions are untouched |
| AuthRoute.Login | packages/api/src/plugins/auth/auth.route.ts:47-83 | unknown e-mail or wrong password: `404` and nothing changes; unapproved user: `401 You're not approved` and nothing changes; otherwise exactly one session is added, for that user, valid until `now + SESSION_VALIDITY`, and it is the session set in the cookie |
| AuthRoute.Me | packages/api/src/plugins/auth/auth.route.ts:96-102 | `data` is present if and only if the request was authenticated, and then holds its session and user |
| AuthRoute.MeShowsOnlyLiveSession | packages/api/src/plugins/auth/auth.route.ts:96-102 | after validation, `/me` shows the cookie's session and user if and only if that session exists and has not expired |
| Decimal.NatToString | packages/api/src/plugins/users/users.functions.ts:14 | a number prints as a non-empty string of digits with no leading zero |
| Decimal.ParseNatToString | packages/api/src/plugins/users/users.functions.ts:14 | reading the printed digits back gives the number |
| Decimal.NatToStringInjective | packages/api/src/plugins/users/users.functions.ts:14 | distinct page numbers print differently |
| Lexicographic.Reflexive | packages/api/src/plugins/users/users.routes.ts:42 | the e-mail order is reflexive |
| Lexicographic.Antisymmetric | packages/api/src/plugins/users/users.routes.ts:42 | the e-mail order is antisymmetric |
| Lexicographic.Transitive | packages/api/src/plugins/users/users.routes.ts:42 | the e-mail order is transitive |
| Lexicographic.Total | packages/api/src/plugins/users/users.routes.ts:42 | any two e-mails are comparable |
| UsersFunctions.CeilDiv | packages/api/src/plugins/users/users.functions.ts:9 | `lastPage` pages of `take` rows hold all `count` rows, and one page fewer would not |
| UsersFunctions.CeilDivUnique | packages/api/src/plugins/users/users.functions.ts:9 | that is the only such number of pages |
| UsersFunctions.Href | packages/api/src/plugins/users/users.functions.ts:14 | a link's href is the listing's address (origin and path) followed by `?take=` and digits that read back as the page size |
| UsersFunctions.LinkTo | packages/api/src/plugins/users/users.functions.ts:12-15 | a link carries the page number it points to, in its number and its href |
| UsersFunctions.HrefEndsWithNumber | packages/api/src/plugins/users/users.functions.ts:14 | an href is the listing URL with `take`, followed by digits that read back as the link's page number |
| UsersFunctions.CreatePaginationObject | packages/api/src/plugins/users/users.functions.ts:5-40 | `self` links the current page; `first` (to page 1) and `prev` (to page − 1) are present if and only if page > 1; `last` links the ceiling of count / take; `next` (to page + 1) is present if and only if that ceiling exceeds 1 |
| UsersFunctions.NextOnLastPage | packages/api/src/plugins/users/users.functions.ts:27-38 | on the last of several pages, `next` still points one page past `last` |
| UsersRoutes.Least | packages/api/src/plugins/users/users.routes.ts:42 | the first row in e-mail order is one of the rows |
| UsersRoutes.LeastIsLeast | packages/api/src/plugins/users/users.routes.ts:42 | no row's e-mail sorts before the first row's |
| UsersRoutes.Ordered | packages/api/src/plugins/users/users.routes.ts:42 | the ordering lists as many rows as there are |
| UsersRoutes.OrderedMembers | packages/api/src/plugins/users/users.routes.ts:42 | the ordering lists exactly the rows, each once |
| UsersRoutes.OrderedAscending | packages/api/src/plugins/users/users.routes.ts:42 | the ordering is strictly ascending by e-mail |
| UsersRoutes.OrderedRank | packages/api/src/plugins/users/users.routes.ts:38-43 | the row at position i of the ordering has exactly i rows with a smaller e-mail |
| UsersRoutes.OrderedWindow | packages/api/src/plugins/users/users.routes.ts:38-43 | a row is in positions `[skip, skip + take)` of the ordering if and only if its rank is in that range |
| UsersRoutes.WindowOfOrdering | packages/api/src/plugins/users/users.routes.ts:38-43 | the rows `findMany` returns for `skip` and `take` are ascending, at most `take` of them, and exactly the rows ranked in `[skip, skip + take)` |
| UsersRoutes.Others | packages/api/src/plugins/users/users.routes.ts:41 | the listing ranges over exactly the stored rows other than the caller's |
| UsersRoutes.OthersDistinct | packages/api/src/plugins/users/users.routes.ts:41 | the rows listed have pairwise distinct e-mails |
| UsersRoutes.GetUsers | packages/api/src/plugins/users/users.routes.ts:32-60 | `data: null` if and only if `take * (page − 1)` skips every other row; otherwise between 1 and `take` rows, ascending by e-mail, exactly the other rows ranked in `[take * (page − 1), take * page)`, with the pagination object for the count of other rows |
| UsersRoutes.ListingExcludesCaller | packages/api/src/plugins/users/users.routes.ts:41 | the listing never contains the caller's row and contains only stored rows |
| UsersRoutes.Created | packages/api/src/plugins/users/users.routes.ts:89-91 | the inserted row has the fresh id, the digest, and the payload's e-mail, role, first name, last name and avatar URL; it is approved only when the payload says so |
| UsersRoutes.CreateUser | packages/api/src/plugins/users/users.routes.ts:70-94 | taken e-mail: `409` and nothing changes; otherwise weak password: `400 TOO_EASY` and nothing changes; otherwise exactly one row is added, holding the hash of the password; sessions are untouched |
| UsersRoutes.MePatch.Changes | packages/api/src/plugins/users/users.routes.ts:170-174 | PATCH /users writes the supplied e-mail, password, names and avatar URL; it never writes role or approval |
| UsersRoutes.MeReplacement.Changes | packages/api/src/plugins/users/users.routes.ts:128-132 | PUT /users writes every payload column (e-mail, password, names, avatar URL); it never writes role or approval |
| UsersRoutes.UserReplacement.Changes | packages/api/src/plugins/users/users.routes.ts:217-221 | PUT /users/{id} writes every column: e-mail, password, role, names, avatar URL and approval |
| UsersRoutes.Updated | packages/api/src/plugins/users/users.routes.ts:126-133 | an update keeps the row's id; each of e-mail, role, first name, last name, avatar URL and approval takes the supplied value and is otherwise kept; the password becomes the hash of a supplied password and is otherwise kept |
| UsersRoutes.EmailConflict | packages/api/src/plugins/users/users.routes.ts:111-120 | an update conflicts only when it supplies an e-mail, and then exactly when some stored row holds that e-mail |
| UsersRoutes.ApplyUpdate | packages/api/src/plugins/users/users.routes.ts:126-135 | the row `id` becomes its update and is returned as a `UserView` (see "## Left out"); a missing row is a store error and nothing changes |
| UsersRoutes.UpdateMe | packages/api/src/plugins/users/users.routes.ts:106-136 | PUT /users: taken e-mail: `409`; otherwise weak password: `400 TOO_EASY`; otherwise the caller's row becomes its update; failures change nothing, other rows and the sessions never change |
| UsersRoutes.UpdateMePartial | packages/api/src/plugins/users/users.routes.ts:148-178 | PATCH /users: conflict only for a supplied, taken e-mail; strength checked only for a supplied password; otherwise the caller's row becomes its update; failures change nothing, other rows and the sessions never change |
| UsersRoutes.UpdateUserPartial | packages/api/src/plugins/users/users.routes.ts:189-225 | PUT /users/{id}: unknown id: `404`; otherwise taken e-mail: `409`; otherwise weak password: `400 TOO_EASY`; otherwise row `id` becomes its update; failures change nothing, other rows and the sessions never change |
| UsersRoutes.UpdateUser | packages/api/src/plugins/users/users.routes.ts:236-272 | PATCH /users/{id}: unknown id: `404`; otherwise conflict only for a supplied, taken e-mail; strength checked only for a supplied password; otherwise row `id` becomes its update; failures change nothing, other rows and the sessions never change |
| UsersRoutes.OwnEmailConflicts | packages/api/src/plugins/users/users.routes.ts:200-209 | an update that re-sends the row's own e-mail is a conflict |
| UsersRoutes.DeleteUser | packages/api/src/plugins/users/users.routes.ts:279-292 | always answers null; an unknown id changes nothing; otherwise the row is removed and only that user's sessions with it |
| Scenarios.ApprovalThenExpiry | packages/api/src/plugins/auth/auth.route.ts:47-83 | a registered user cannot log in until approved; after approval the session authenticates 23 hours later with scope `['user', 'user-<id>', 'USER']` and is rejected, deleted and its cookie cleared 25 hours later |
| Scenarios.ValidateTwice | packages/api/src/plugins/auth/auth.plugin.ts:46-69 | validating the same cookie twice at one instant gives the same answer and the same cookie-clearing decision, and leaves the table one sweep left |
| Scenarios.DeleteTwice | packages/api/src/plugins/users/users.routes.ts:279-292 | deleting a user twice leaves what deleting once left: the row is gone, and exactly that user's sessions with it |

## Left out

- Cookie handling: the encoding of the cookie, its name, password and flags, and Hapi's `clearInvalid` behaviour. Clearing the cookie is the `clearCookie` result of `AuthPlugin.Validate`. Setting it is the session `AuthRoute.Login` returns.
- Status codes: Hapi's choice between 401 and 403 on a refused route is not modelled. `AuthPlugin.Admits` only says whether the route admits the request. The 201 and 200 success codes are not modelled either.
- Payload validation: Joi schemas are not modelled beyond two things. The bounds on `take` (25 to 500) and `page` (at least 1) are preconditions. The full and the partial payloads are separate datatypes. The model therefore never sees the empty strings Joi rejects, and `if (email)` / `password ?` become "the field is supplied".
- Hashing and strength: bcrypt and zxcvbn are `Passwords.Kit` function values. `Kit.Sound` (compare accepts the hash of the same password) is assumed only in `Scenarios`. The salt rounds are not modelled.
- Configuration: `SESSION_VALIDITY` is fixed at its default, one day in milliseconds. Parsing it from the environment with `ms` is not modelled.
- Timestamps and dates: `createdAt` and `updatedAt` are not modelled. `Date` values are integers of milliseconds.
- UsersRoutes.GetUsers: the rows are the full `user` rows that `findMany` returns. The response schema drops the password afterwards, and that step is not modelled.
- UsersRoutes.ApplyUpdate: the update handlers return the full updated row, digest included. The model returns it as a `UserView`, the columns of the response schema (`userSchema`, users.schema.ts:16-28), so it folds the response step into `View`. How Hapi's response validation treats the extra `password` column is not modelled. `GetUsers` instead keeps the full rows, as noted above.
- UsersRoutes.GetUsers: e-mails are ordered by code point. The database collation may order them differently.
- The transaction: the model runs `findMany` and `count` on the same table, so they see the same data, as they do inside the transaction.
- UsersFunctions.CeilDiv: `Math.ceil(count / take)` is computed exactly on integers. Floating-point rounding is not modelled, which is exact for any realistic count.
- Concurrency: every handler runs alone on the tables. Interleaving of the `async` steps (e.g. two registrations of one e-mail) is not modelled.
- The `!request` check in `validateFunc` is a boolean parameter.
- UsersRoutes.DeleteUser: the raw `DELETE FROM public."user"` is modelled as also deleting that user's sessions. The foreign key from `session.userId` is assumed to cascade, because the schema migration is not part of this model.
- UsersRoutes.ApplyUpdate: an `update` of a missing id makes Prisma throw. This is modelled as `Failure.StoreError`. It can happen only on `/users` when the caller's row is gone.
- The column defaults: role USER, `isApproved` false and null names are taken from how registered users behave. The database schema is not part of this model.
- The registration of the routes with the server (`users.plugin.ts`, `server.ts`) is not part of this model.
