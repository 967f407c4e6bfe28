# RBAC admin: a Dafny model

This project models the access-control core of a small role-based admin
application built on next-auth and Prisma:

- **Authorization check.** `hasPermission` is exact membership of a
  permission name in the session's list of names.
- **Sign-in claims.** `authorize` turns a user's role assignments into a
  list of role names and a flat list of permission names. The `jwt` and
  `session` callbacks carry those claims from the sign-in to the session.
- **Route handlers.** The `/api/roles`, `/api/permissions` and `/api/users`
  handlers are modelled as transitions on an immutable store. The store has
  five tables: roles, permissions, users, grants (role to permission) and
  assignments (user to role). Each handler takes the session, the request
  and the store. It returns a response and the store it leaves behind.
- **Seed script.** The seed script is modelled as a chain of idempotent
  upserts that builds the three roles, thirteen permissions and three users.
- **Client-side helpers.** Pagination arithmetic for the permissions page,
  and the selection-list updates and access effect of the two "create"
  pages.

Modules, one per source file or shared concern:

| module | models |
|---|---|
| `Wrappers` | `Option` |
| `Tables` | the store, its tables, lookups (`findUnique`/`findFirst`), `where` filters, relation `include`s, and the database constraints (`Valid`) |
| `Authz` | `hasPermission` |
| `Auth` | `authorize`, the claims (`FlatPermissionNames` is the `flatMap` of permission names; `FlatAppend`, `FlatMembership` and `FlatKeepsDuplicates` state what it computes), the `jwt` and `session` callbacks |
| `Http` | response shape and the session/permission gate every handler runs first |
| `Ordering` | `orderBy: { name: 'asc' }` as an insertion sort under the lexicographic order of code points |
| `RolesApi`, `PermissionsApi`, `UsersApi` | the three route files |
| `Seed` | the seed script |
| `Pagination` | the permissions page's paging |
| `Client`, `RoleForm`, `UserForm` | the create-role and create-user pages |

Modelling conventions:

- **Missing fields.** The source tests many fields with `!x`; the model writes "" for a missing or empty string there.
- **Absent permission claim.** `hasPermission(undefined, …)` throws. A session whose permission claim is absent is the `ClaimMissing` decision. The roles and permissions routes do not catch that exception, so the framework answers 500. The users route makes its check inside its `try`, so it answers 500 "Failed to fetch users".
- **Store failures.** A handler takes a `fault` flag: the first store access throws and the handler answers 500. Checks that come before the first store access still decide the answer.
- **Nondeterministic inputs.** Fresh ids (`crypto.randomUUID()`) are parameters. Timestamps are dropped.
- **Password hashing.** bcrypt's `compare` is the `passwordMatches` parameter of `Auth.Authorize`, and its `hash` is the `hash` parameter of `Seed.Run`.
- **Database constraints.** The database refuses a grant whose permission does not exist (foreign key) and a second grant for the same (role, permission) pair (unique index). POST on roles runs in a transaction and rolls back on a refusal. PATCH does not, so a refused grant leaves the earlier writes in place; the model keeps that behaviour as written.
- **Seed ids.** The seed leaves ids to database defaults. The model uses stand-in ids derived from each row's unique column (`role-admin`, `permission-users:read`, `user-admin@example.com`).

## Model

| member | source | states |
|---|---|---|
| Authz.HasPermission | src/lib/utils.ts:14-19 | granted iff some index of the list holds exactly the required name |
| Authz.HasPermissionIsMembership | src/lib/utils.ts:18 | the check is plain sequence membership |
| Authz.EmptyGrantsNothing | src/lib/utils.ts:18 | an empty permission list grants nothing |
| Authz.SingletonGrantsExactlyItself | src/lib/utils.ts:18 | a one-name list grants that name and no other |
| Authz.NoWildcardNoCaseFolding | src/lib/utils.ts:18 | `users:*`, a differently-cased name, or a prefix does not grant `users:read` |
| Authz.Monotone | src/lib/utils.ts:18 | a granted name stays granted when the list is extended on either side |
| Authz.OnlyTheSetMatters | src/lib/utils.ts:18 | two lists with the same set of names grant the same names, whatever order or repetition |
| Authz.HasAnyPermission | src/app/api/permissions/route.ts:18-19 | the either-of gate holds iff some listed name is held |
| Auth.Authorize | src/lib/auth.ts:23-80 | missing email or password gives null. An unknown email gives null. A success found the user by email, found a non-empty stored hash, and the comparison accepted it; the result is that user's claims |
| Auth.AuthorizeSucceeds | src/lib/auth.ts:49-79 | with both credentials present and a stored hash that accepts the password, the result is exactly the claims of that user |
| Auth.MissingCredentialsNeedNoLookup | src/lib/auth.ts:24-26 | missing credentials give null whatever the store holds, so no lookup matters |
| Auth.LoadUser | src/lib/auth.ts:28-47 | the loaded user is the row found, with at most one loaded role per assignment row, every loaded role and permission a stored row |
| Auth.Claims | src/lib/auth.ts:63-79 | the claims carry the user's id, name, email and image, one role name per loaded role and one permission name per grant row of those roles |
| Auth.ClaimsRolesPerAssignment | src/lib/auth.ts:64 | the role claim has one entry per assignment: that assignment's role name, in assignment order |
| Auth.FlatAppend | src/lib/auth.ts:65-70 | flattening the permission names distributes over concatenation of the role list |
| Auth.FlatMembership | src/lib/auth.ts:65-70 | a name is in the flat list iff some loaded role has a permission of that name |
| Auth.FlatKeepsDuplicates | src/lib/auth.ts:65-70 | the flat list has one entry per grant row of every role, so duplicates across roles are kept |
| Auth.ClaimedSetIgnoresRoleOrder | src/lib/auth.ts:65-70 | the set of claimed names does not depend on the order of the roles |
| Auth.NoRolesNoClaims | src/lib/auth.ts:64-70 | a user without assignments gets empty role and permission claims |
| Auth.ClaimedIsEffective | src/lib/auth.ts:28-47 | every claimed name is reached through an assignment, an existing role, a grant and an existing permission |
| Auth.EffectiveIsClaimed | src/lib/auth.ts:28-47 | every such chain of rows puts the permission's name in the claim |
| Auth.ClaimsAreEffective | src/lib/auth.ts:63-70 | in a valid store a name is claimed iff the user's roles grant a permission of that name |
| Auth.Jwt | src/lib/auth.ts:84-102 | an update with a session gives, field by field, the session user's id, name, email, image, roles and permissions where present and the token's own where absent, and keeps the token's other claims. Otherwise a sign-in user sets id, name, email, image, roles and permissions. With neither, the token is returned unchanged |
| Auth.Overlay | src/lib/auth.ts:87 | `{ ...token, ...session.user }`: each field the session user carries replaces the token's, each absent one keeps the token's, other claims kept |
| Auth.SpreadOverUnique | src/lib/auth.ts:87 | the field-by-field description determines the overlaid token completely |
| Auth.OverlayIdempotent | src/lib/auth.ts:87 | spreading the same session user twice is spreading it once |
| Auth.EmptyUpdateKeepsToken | src/lib/auth.ts:85-88 | an update whose session user carries none of the fields returns the token unchanged |
| Auth.SessionCallback | src/lib/auth.ts:103-113 | with a token, id, roles and permissions come from it and the other user fields and the expiry are kept; without one the session is unchanged |
| Auth.SignInReachesSession | src/lib/auth.ts:90-110 | the claims `authorize` returned reach the session unchanged |
| Auth.ClaimsStayUntilRefresh | src/lib/auth.ts:85-110 | a `jwt` call with neither user nor update leaves the session's permission claim as it was at sign-in |
| Http.Decide | src/app/api/roles/route.ts:10-21 | the gate's outcome is 401 iff there is no session, "claim missing" iff the permission claim is absent, and admitted iff some required name is held |
| Http.FailClosed | src/app/api/permissions/route.ts:11-23 | an admitted session has a permission claim holding one of the required names |
| Http.SignedInGate | src/lib/auth.ts:63-110 | a session signed in from a valid store is admitted to a permission iff one of the user's roles grants it |
| Tables.Find | src/app/api/roles/route.ts:203-205 | a found row is in the table and has the key, and nothing is found iff no row has the key |
| Tables.FindUnique | src/app/api/roles/route.ts:203-205 | with unique keys, looking up a row's key finds that very row |
| Tables.Where | src/app/api/roles/route.ts:239-241 | `deleteMany`/`where`: the rows kept are exactly the rows that satisfy the filter |
| Tables.WhereAppend | src/app/api/roles/route.ts:239-241 | filtering distributes over concatenation |
| Tables.WhereNone | src/app/api/roles/route.ts:319-321 | a filter no row satisfies keeps nothing |
| Tables.WhereAll | src/app/api/roles/route.ts:319-321 | a filter every row satisfies keeps everything |
| Tables.WhereWhere | src/app/api/roles/route.ts:319-331 | filtering by a wider condition and then a narrower one is filtering by the narrower one |
| Tables.WhereKeysUnique | src/app/api/roles/route.ts:319-331 | filtering keeps keys unique |
| Tables.Follow | src/lib/auth.ts:32-46 | a relation `include`: at most one row per join row, each an existing row whose key some join row points at |
| Tables.FollowResolved | src/lib/auth.ts:32-46 | when every join row resolves, the include has one row per join row, each with the key its join row points at |
| Tables.FollowAppend | src/lib/auth.ts:32-46 | the include distributes over concatenation of the join rows |
| Tables.FollowMembership | src/lib/auth.ts:32-46 | a row is included iff it exists and some join row points at its key |
| Tables.KeysUniqueAppend | src/app/api/permissions/route.ts:68-86 | appending a row with a fresh key keeps keys unique |
| Tables.FindExtends | prisma/seed.ts:8-33 | a row found before rows are appended is still the one found |
| Tables.FindAppended | prisma/seed.ts:8-33 | an appended row with a fresh key is what a lookup of that key finds |
| Tables.HasAppend | prisma/seed.ts:8-33 | after appending a row, a key is present iff it was present before or is the new row's key |
| Tables.HasExtends | prisma/seed.ts:59-65 | a key present in a prefix is present in every extension |
| Tables.HasGrows | src/app/api/roles/route.ts:133-143 | a key present before an append is present after it |
| Tables.SingleOccurrence | src/app/api/roles/route.ts:122-130 | with unique keys every row occurs exactly once |
| Tables.PermutationKeepsKeysUnique | src/app/api/permissions/route.ts:26-30 | reordering rows keeps keys unique |
| Tables.GrantsOf | src/app/api/roles/route.ts:33-38 | a role's grant rows are exactly the grant rows naming that role |
| Tables.AssignmentsOf | src/app/api/users/route.ts:33-37 | a user's assignment rows are exactly the assignment rows naming that user |
| Tables.GrantedPermissionsPerRow | src/app/api/roles/route.ts:52-55 | in a store where grants resolve, a role's permissions line up one-to-one with its grant rows |
| Tables.AssignedRolesPerRow | src/app/api/users/route.ts:47 | in a store where assignments resolve, a user's roles line up one-to-one with its assignment rows |
| Ordering.LexLeReflexive | src/app/api/permissions/route.ts:27-29 | the name order is reflexive |
| Ordering.LexLeTotal | src/app/api/permissions/route.ts:27-29 | any two names are comparable |
| Ordering.LexLeTransitive | src/app/api/permissions/route.ts:27-29 | the name order is transitive |
| Ordering.LexLeAntisymmetric | src/app/api/permissions/route.ts:27-29 | names that sort before each other are equal |
| Ordering.InsertBy | src/app/api/permissions/route.ts:27-29 | inserting into a sorted list keeps it sorted and adds exactly that row |
| Ordering.SortBy | src/app/api/permissions/route.ts:26-30 | the sorted listing is ascending by key and a permutation of the input |
| Ordering.SortedDistinctIsStrict | src/app/api/permissions/route.ts:26-30 | with distinct keys a sorted list is strictly ascending |
| RolesApi.LastSegment | src/app/api/roles/route.ts:24-26 | the id is the longest slash-free suffix of the path, preceded by a slash or the path start |
| RolesApi.LastSegmentAfterSlash | src/app/api/roles/route.ts:24-26 | the segment after the last slash is extracted exactly |
| RolesApi.TargetRole | src/app/api/roles/route.ts:24-28 | a designated role id is a non-empty, slash-free suffix of the path, preceded by a slash or the path start, and not `roles`; no id means the path is empty, ends in a slash or ends in a `roles` segment |
| RolesApi.CollectionPaths | src/app/api/roles/route.ts:24-28 | paths ending in `roles` or a slash mean the collection; any other last segment is the role id |
| RolesApi.GetRoles | src/app/api/roles/route.ts:7-94 | never writes. Gives 401 without a session, the framework's uncaught 500 without a permission claim, and 403 without `roles:read`. Gives 500 on a store failure. Gives 404 for an id iff no role has it. When admitted with a healthy store, 200 iff the path names the collection or an existing role |
| RolesApi.DetailOf | src/app/api/roles/route.ts:47-56 | the single-role answer copies the role's id, name and description, and has at most one (id, name) pair per grant row of the role, each a stored permission's |
| RolesApi.GetRoleListsEachGrant | src/app/api/roles/route.ts:41-58 | GET of an existing role lists one (id, name) pair per grant row of that role, in row order, each naming an existing permission |
| RolesApi.ListingNamesGrantedPermissions | src/app/api/roles/route.ts:67-87 | the collection lists every role in store order, and a name is in a role's list iff a grant row of the role points at a permission of that name |
| RolesApi.GrantedNamesIff | src/app/api/roles/route.ts:80-85 | a role's listed names are exactly the names of the permissions its grant rows point at |
| RolesApi.ListedNameIsGranted | src/app/api/roles/route.ts:84 | a listed name comes from a grant row of the role |
| RolesApi.GrantedNameIsListed | src/app/api/roles/route.ts:84 | the permission a grant row points at is listed by name |
| RolesApi.GrantId | src/app/api/roles/route.ts:149 | the composite id is the role id, an underscore, then the permission id |
| RolesApi.GrantIdDeterminesPair | src/app/api/roles/route.ts:149 | for role ids without an underscore, equal composite ids come from equal (role, permission) pairs |
| RolesApi.GrantIdCollision | src/app/api/roles/route.ts:248 | with an underscore in a role id, two different pairs share a composite id |
| RolesApi.NewGrantsGrantExactly | src/app/api/roles/route.ts:147-155 | the batch rows grant a pair iff it is the new role with a listed id, and with distinct ids each pair appears once |
| RolesApi.InsertGrant | src/app/api/roles/route.ts:246-253 | a grant insert is refused iff the permission does not exist or the pair is already granted; otherwise it appends exactly that grant |
| RolesApi.InsertGrants | src/app/api/roles/route.ts:245-254 | only grants change. When all inserts succeed, exactly the requested grants are appended. Otherwise a proper prefix of them is |
| RolesApi.InsertGrantsCompleteIff | src/app/api/roles/route.ts:147-155 | a batch goes through iff every id names an existing permission, no id repeats, and none is already granted |
| RolesApi.InsertGrantsKeepsIntegrity | src/app/api/roles/route.ts:147-155 | inserting grants for an existing role keeps every grant resolving and every pair unique |
| RolesApi.PostRole | src/app/api/roles/route.ts:96-168 | anything but 200 leaves the store unchanged. 401, then the uncaught 500 without a permission claim, then 403, then 400 for an empty name, then 500 on a store failure, then 400 for a taken name. Past those, 200 iff the id is fresh and every grant insert goes through. 200 adds exactly the new role and its requested grants |
| RolesApi.PostRoleSucceedsIff | src/app/api/roles/route.ts:115-159 | in a valid store, an admitted POST with a new name and a fresh id answers 200 iff every requested id names an existing permission and no id repeats |
| RolesApi.PostRoleGrantsExactlyRequested | src/app/api/roles/route.ts:133-159 | after a successful POST the new role's grant rows are exactly those requested |
| RolesApi.AddRoleKeepsValid | src/app/api/roles/route.ts:135-143 | adding a role with a fresh id and name keeps every constraint |
| RolesApi.PostRoleKeepsValid | src/app/api/roles/route.ts:115-159 | POST keeps every database constraint, role-name uniqueness included, whatever it answers |
| RolesApi.Rename | src/app/api/roles/route.ts:228-234 | only the role with the id changes, to the new name and description |
| RolesApi.PatchRole | src/app/api/roles/route.ts:170-278 | 401, then the uncaught 500 without a permission claim, then 403, then 400 without id, then 400 without name, then 500 on a store failure, then 404 for an unknown id, then 400 for a name another role holds, each leaving the store unchanged. Past those, 200 iff every grant insert goes through. 200 renames the role and, with a permission list, replaces its grants by exactly that list |
| RolesApi.PatchRoleSucceedsIff | src/app/api/roles/route.ts:227-256 | in a valid store, an accepted PATCH answers 200 iff it carries no list, or every listed id names an existing permission and no id repeats |
| RolesApi.OwnNameIsFree | src/app/api/roles/route.ts:213-225 | with unique role names, a role's own name is not held by another role, so keeping it passes the duplicate check |
| RolesApi.PatchKeepingOwnNameSucceeds | src/app/api/roles/route.ts:213-237 | in a valid, healthy store, an admitted PATCH that keeps a role's non-empty name and sends no list answers 200 |
| RolesApi.ApplyChange | src/app/api/roles/route.ts:227-256 | the accepted writes rename the role and touch no other table but grants. The answer is 200 iff every grant insert goes through, and 500 otherwise. A 200 leaves the grants unchanged without a list, and otherwise replaces the role's grants by exactly the list |
| RolesApi.ApplyChangeKeepsValid | src/app/api/roles/route.ts:227-256 | the accepted writes keep every constraint, however far the grant inserts get |
| RolesApi.RenameKeepsValid | src/app/api/roles/route.ts:213-234 | renaming to a name no other role holds keeps every constraint |
| RolesApi.RenameKeepsRole | src/app/api/roles/route.ts:228-234 | the renamed role is still found under its id |
| RolesApi.DropGrantsKeepsValid | src/app/api/roles/route.ts:239-241 | dropping a role's grants keeps every constraint |
| RolesApi.ReplaceGrantsKeepsValid | src/app/api/roles/route.ts:237-256 | dropping and re-inserting a role's grants keeps every constraint however far the inserts get |
| RolesApi.PatchRoleKeepsValid | src/app/api/roles/route.ts:170-278 | PATCH keeps every database constraint whatever it answers, including a partial failure |
| RolesApi.PatchRoleReplacesGrants | src/app/api/roles/route.ts:237-256 | after a successful PATCH with a list the role's grants are exactly that list, and every other role keeps its grant rows |
| RolesApi.DeleteRole | src/app/api/roles/route.ts:280-340 | anything but 204 leaves the store unchanged. 401, then the uncaught 500 without a permission claim, then 403, then 400 without an id, then 500 on a store failure. With a healthy store, 404 iff the role is unknown and 204 iff it exists. 204 removes the role, its grants and its assignments and nothing else |
| RolesApi.Cascade | src/app/api/roles/route.ts:318-331 | the cascade keeps exactly the roles, grants and assignments that do not name the role, and leaves permissions and users as they were |
| RolesApi.DeleteRoleCascades | src/app/api/roles/route.ts:318-333 | after DELETE no row references the role, every other row is kept, and permissions and users are untouched |
| RolesApi.CascadeGrantsResolve | src/app/api/roles/route.ts:318-331 | after the cascade every remaining grant points at a role and a permission |
| RolesApi.CascadeAssignmentsResolve | src/app/api/roles/route.ts:323-331 | after the cascade every remaining assignment points at a user and a role |
| RolesApi.DeleteRoleKeepsValid | src/app/api/roles/route.ts:318-333 | DELETE keeps every database constraint |
| RolesApi.RefusalPrecedesEverything | src/app/api/roles/route.ts:10-21 | a refused request gets the same answer whatever the path, body, store or store health |
| PermissionsApi.GetPermissions | src/app/api/permissions/route.ts:7-39 | never writes. 401 without a session. The uncaught 500 without a permission claim. 403 iff neither `permissions:read` nor `roles:read` is held. 500 on a store failure. 200 iff admitted with a healthy store, listing every permission sorted by name |
| PermissionsApi.ListingStrictlyAscending | src/app/api/permissions/route.ts:26-32 | with unique names the listing is strictly ascending |
| PermissionsApi.PostPermission | src/app/api/permissions/route.ts:41-95 | anything but 201 leaves the store unchanged. 401, then the uncaught 500 without a permission claim, then 403, then 400 for an empty name, then 400 for an existing name, and 500 on a failure. With a healthy store and a new name, 201 iff the id is fresh. 201 appends exactly one permission with the given name and description |
| PermissionsApi.PostPermissionKeepsValid | src/app/api/permissions/route.ts:61-88 | POST keeps permission names pairwise distinct and every other constraint |
| UsersApi.GetUsers | src/app/api/users/route.ts:7-58 | never writes. 401 without a session. 403 without `users:read`. 500 "Failed to fetch users" on a thrown check or a store failure. 200 iff admitted with a healthy store, listing one entry per user in store order with its id, name, email and image and no password |
| UsersApi.Project | src/app/api/users/route.ts:42-48 | a listed user carries the row's id, name, email and image, and at most one role name per assignment row, each a stored role's name |
| UsersApi.ListedRolesAreAssigned | src/app/api/users/route.ts:42-48 | each listed user has one role name per assignment row, and a name is listed iff an assignment of the user points at a role of that name |
| UsersApi.AssignedNamesIff | src/app/api/users/route.ts:47 | a user's listed role names are exactly the names of the roles its assignments point at |
| UsersApi.ListedNameIsAssigned | src/app/api/users/route.ts:47 | a listed role name comes from an assignment row of the user |
| UsersApi.AssignedNameIsListed | src/app/api/users/route.ts:47 | the role an assignment row of the user points at is listed by name |
| UsersApi.ListingAgreesWithSignIn | src/app/api/users/route.ts:47 | the listed roles of a user equal the role claim that user would get at sign-in |
| Seed.UpsertBy | prisma/seed.ts:8-33 | an upsert with an empty `update` keeps existing rows, appends the new row only when its unique key is absent, and answers the row found under that key |
| Seed.UpsertKeepsFound | prisma/seed.ts:8-33 | an upsert never changes what another key's lookup finds |
| Seed.UpsertTwice | prisma/seed.ts:8-33 | repeating an upsert changes nothing and answers the same row |
| Seed.UpsertPermissions | prisma/seed.ts:59-65 | the permission loop only appends |
| Seed.UpsertPermissionsCovers | prisma/seed.ts:59-65 | after the loop every listed permission name is present |
| Seed.UpsertPermissionsPresent | prisma/seed.ts:59-65 | when every name is already present the loop changes nothing |
| Seed.UpsertPermissionsFresh | prisma/seed.ts:59-65 | with distinct names none of which is present, the loop appends exactly one row per definition, in order |
| Seed.PermissionRows | prisma/seed.ts:59-65 | one created row per definition, in order |
| Seed.UpsertGrant | prisma/seed.ts:71-83 | a grant upsert on the (role, permission) pair leaves the pair granted and appends a row only when it was not |
| Seed.GrantEach | prisma/seed.ts:70-84 | granting a list only appends and leaves every listed permission granted to the role |
| Seed.GrantEachGrants | prisma/seed.ts:70-84 | a pair is granted afterwards iff it was before or it is the role with a listed permission |
| Seed.GrantEachPresent | prisma/seed.ts:70-84 | when every pair is already granted the loop changes nothing |
| Seed.SeedGrants | prisma/seed.ts:67-139 | the three grant loops only append |
| Seed.SeedGrantsExact | prisma/seed.ts:67-139 | a pair is granted afterwards iff it was before, or it is admin with any permission, or `user`/`manager` with a permission of a listed name |
| Seed.SeedGrantsIdempotent | prisma/seed.ts:67-139 | re-running the grant loops changes nothing |
| Seed.UpsertAssignment | prisma/seed.ts:176-188 | an assignment upsert adds exactly that (user, role) pair to the relation |
| Seed.SeedAssignments | prisma/seed.ts:175-216 | the assignment relation afterwards is the old one plus the three seed pairs |
| Seed.SeedAssignmentsIdempotent | prisma/seed.ts:175-216 | re-running the assignment upserts changes nothing |
| Seed.UpsertThree | prisma/seed.ts:8-33 | three upserts only append and answer the rows found under the three keys |
| Seed.UpsertThreeFound | prisma/seed.ts:8-33 | when all three keys are present the upserts change nothing and answer the existing rows |
| Seed.RunSeed | prisma/seed.ts:6-219 | the script only appends: every table of the old store is a prefix of the new one |
| Seed.Run | prisma/seed.ts:6-219 | the seed only appends: every table of the old store is a prefix of the new one |
| Seed.RunFinds | prisma/seed.ts:8-173 | the roles and users the script holds are the rows found under their names and emails |
| Seed.RunCovers | prisma/seed.ts:59-65 | after the seed every listed permission name is present |
| Seed.AdminHoldsEverything | prisma/seed.ts:67-84 | the admin role is granted every permission present after the permission loop |
| Seed.SeedUsersHoldTheirRoles | prisma/seed.ts:175-216 | each seed user is assigned its namesake role |
| Seed.RunIdempotent | prisma/seed.ts:8-216 | running the seed again, with any hash function, leaves the result unchanged |
| Seed.FreshThree | prisma/seed.ts:8-33 | on an empty table three upserts with distinct keys create exactly those three rows |
| Seed.FreshRun | prisma/seed.ts:8-173 | on an empty database the roles and users are exactly the three created rows each, in script order |
| Seed.FreshPermissions | prisma/seed.ts:36-65 | on an empty database the permissions are exactly one row per definition, in order |
| Seed.UpsertPermissionsKeyed | prisma/seed.ts:59-65 | the loop keeps every permission row's id derived from its name |
| Seed.PermissionKeyInjective | prisma/seed.ts:59-65 | distinct permission names give distinct ids |
| Seed.SeedGrantsFresh | prisma/seed.ts:67-139 | from no grants, admin holds every permission, and `user`/`manager` hold a permission iff its name is listed for them |
| Seed.FreshGrants | prisma/seed.ts:67-139 | on an empty database, admin holds every seeded permission, `user` holds exactly those in its list, and `manager` holds exactly those in its list |
| Seed.SeedAssignmentsFresh | prisma/seed.ts:175-216 | from no assignments the three seed pairs are created in script order |
| Seed.FreshAssignments | prisma/seed.ts:175-216 | on an empty database the assignments are exactly the three seed pairs |
| Seed.SeedPermissionNamesDistinct | prisma/seed.ts:36-57 | the script defines 13 permission names, pairwise distinct |
| Seed.EffectiveThrough | prisma/seed.ts:175-216 | an assigned role's granted permission is effective for the user |
| Seed.EffectiveOnlyThrough | prisma/seed.ts:175-216 | a user whose only role grants none of a name lacks it |
| Seed.AdminHoldsListed | prisma/seed.ts:67-188 | on any store, after the seed the admin user effectively holds every listed permission |
| Seed.SeedKeysDistinct | prisma/seed.ts:8-173 | the three roles and the three users get distinct ids |
| Seed.SecondOfThree | prisma/seed.ts:190-202 | the middle of three assignments with distinct users is that user's only assignment |
| Seed.FreshRegularUserRole | prisma/seed.ts:190-202 | on an empty database the regular user's only assignment is the `user` role |
| Seed.FreshUserRoleGrantsListed | prisma/seed.ts:86-109 | on an empty database the `user` role is granted only permissions its list names |
| Seed.RegularUserLacks | prisma/seed.ts:86-202 | on an empty database the regular user holds no permission outside the `user` role's list |
| Seed.UserRoleGrantsExactly | prisma/seed.ts:86-109 | on an empty database the `user` role is granted exactly `users:read` and `dashboard:access` |
| Seed.ManagerRoleGrantsExactly | prisma/seed.ts:111-139 | on an empty database the `manager` role is granted exactly the six listed permissions |
| Seed.AdminMayDeletePermissions | prisma/seed.ts:53-188 | on any store, after the seed the admin user effectively holds `permissions:delete` |
| Seed.RegularUserMayNotReadRoles | prisma/seed.ts:86-202 | on an empty database, after the seed the regular user does not hold `roles:read` |
| Seed.UpsertGrantKeepsPairsUnique | prisma/seed.ts:71-83 | a grant upsert keeps every (role, permission) pair unique |
| Seed.GrantEachKeepsPairsUnique | prisma/seed.ts:70-84 | a grant loop keeps every pair unique |
| Seed.GrantEachRows | prisma/seed.ts:70-84 | every grant row after a loop was there before or grants the role a listed permission |
| Seed.SeedGrantsRows | prisma/seed.ts:67-139 | every grant row after the three loops was there before or grants one of the three roles a permission of the loop |
| Seed.SeedGrantsKeepPairsUnique | prisma/seed.ts:67-139 | the three grant loops keep every pair unique |
| Seed.PermissionRowsUnique | prisma/seed.ts:59-65 | distinct definition names give permission rows with distinct names and distinct ids |
| Seed.ThreeOfEachValid | prisma/seed.ts:8-188 | three roles and three users with distinct keys, and one assignment per user to its namesake role, satisfy the role, user and assignment constraints |
| Seed.FreshRowsValid | prisma/seed.ts:8-188 | on an empty database the seeded roles, users and assignments satisfy their constraints |
| Seed.LoopGrantsValid | prisma/seed.ts:67-139 | grants built from none by the three loops over the stored permissions resolve and are pairwise unique |
| Seed.FreshGrantsValid | prisma/seed.ts:67-139 | on an empty database the seeded grants resolve and are pairwise unique |
| Seed.FreshRunValid | prisma/seed.ts:6-219 | on an empty database, with distinct permission names, the seeded store satisfies every database constraint |
| Seed.SeededStoreValid | prisma/seed.ts:6-219 | the script's own run on an empty database satisfies every database constraint |
| Seed.ClaimCheckIsEffective | src/lib/auth.ts:63-70 | in a valid store, the permission check on a user's sign-in claim passes iff one of the user's roles grants a permission of that name |
| Seed.AdminClaimHoldsListed | prisma/seed.ts:67-188 | on an empty database, the admin user's sign-in claims pass the permission check for every listed permission |
| Seed.RegularClaimLacks | prisma/seed.ts:86-202 | on an empty database, the regular user's sign-in claims fail the check for every name outside the `user` role's list |
| Seed.AdminClaimAllowsDeletingPermissions | prisma/seed.ts:53-188 | on an empty database, the admin user's sign-in claims pass the check for `permissions:delete` |
| Seed.RegularClaimForbidsReadingRoles | prisma/seed.ts:86-202 | on an empty database, the regular user's sign-in claims fail the check for `roles:read` |
| Pagination.TotalPages | src/app/dashboard/permissions/page.tsx:40-41 | the page count covers all rows, and a positive count leaves no empty last page |
| Pagination.TotalPagesIsCeiling | src/app/dashboard/permissions/page.tsx:41 | the only count with both properties is the computed one, so it is the integer ceiling of n/10 |
| Pagination.Slice | src/app/dashboard/permissions/page.tsx:44 | a slice is a run of consecutive rows starting at the resolved start index |
| Pagination.PageItems | src/app/dashboard/permissions/page.tsx:42-44 | whatever the page number, the page shows at most ten consecutive rows of the list |
| Pagination.PageWindow | src/app/dashboard/permissions/page.tsx:42-44 | page p from 1 shows the rows from (p-1)·10 up to min(n, p·10), at most ten |
| Pagination.PageNotEmpty | src/app/dashboard/permissions/page.tsx:41-44 | a page between 1 and the page count shows between one and ten rows |
| Pagination.PastTheEnd | src/app/dashboard/permissions/page.tsx:41-44 | a page past the last one shows nothing |
| Pagination.FirstPagesArePrefix | src/app/dashboard/permissions/page.tsx:42-44 | the first k pages read in order are the first min(n, 10k) rows |
| Pagination.PagesCoverList | src/app/dashboard/permissions/page.tsx:41-44 | the pages from 1 to the page count concatenate to the whole list |
| Pagination.PagesDisjoint | src/app/dashboard/permissions/page.tsx:42-44 | earlier pages end where or before later pages start, so pages are disjoint |
| Pagination.Previous | src/app/dashboard/permissions/page.tsx:148 | Previous never goes below 1 and steps back by one from any later page |
| Pagination.Next | src/app/dashboard/permissions/page.tsx:164 | Next never exceeds the page count and steps forward by one from any earlier page |
| Pagination.DisabledClicksAreNoOps | src/app/dashboard/permissions/page.tsx:148-165 | a click on a disabled button would not move the page anyway |
| Pagination.NextOnEmptyList | src/app/dashboard/permissions/page.tsx:164 | with no rows, Next from page 1 goes to page 0, which shows nothing |
| Pagination.PageLinksExact | src/app/dashboard/permissions/page.tsx:152 | a page has a link iff it is between 1 and the page count |
| Pagination.ClickKeepsReachable | src/app/dashboard/permissions/page.tsx:148-164 | from a reachable page every Previous, Next or link click leads to a reachable page: 1, a real page, or 0 when there are no pages |
| Pagination.ReachablePageIsWindow | src/app/dashboard/permissions/page.tsx:42-44 | a reachable page shows at most ten consecutive rows, and page 0 shows none |
| Client.Without | src/app/dashboard/users/create/page.tsx:170 | filtering drops every occurrence of the id and keeps exactly the other elements |
| Client.WithoutAbsent | src/app/dashboard/roles/create/page.tsx:105 | filtering an absent id changes nothing |
| Client.WithoutAppend | src/app/dashboard/roles/create/page.tsx:105 | filtering distributes over concatenation, so the others keep their relative order |
| Client.WithoutIdempotent | src/app/dashboard/roles/create/page.tsx:105 | filtering twice is filtering once |
| Client.WithoutKeepsDistinct | src/app/dashboard/roles/create/page.tsx:105 | filtering keeps a duplicate-free list duplicate-free |
| Client.CreatePageEffect | src/app/dashboard/users/create/page.tsx:37-62 | waits while loading. Sends a signed-out visitor to `/login`. Throws when the permission claim is absent. Loads data iff the permission is held, and otherwise sends the user back to the list |
| Client.LackingPermissionRedirects | src/app/dashboard/roles/create/page.tsx:44-48 | a signed-in user without the permission is redirected to the list page |
| RoleForm.Toggle | src/app/dashboard/roles/create/page.tsx:102-108 | the toggled id's membership flips and every other id's membership is kept |
| RoleForm.ToggleKeepsOthers | src/app/dashboard/roles/create/page.tsx:102-108 | the other ids are unchanged and keep their relative order |
| RoleForm.ToggleTwiceRestores | src/app/dashboard/roles/create/page.tsx:102-108 | toggling an absent id twice restores the list exactly |
| RoleForm.ToggleKeepsDistinct | src/app/dashboard/roles/create/page.tsx:102-108 | toggling keeps the selection duplicate-free |
| RoleForm.Submission | src/app/dashboard/roles/create/page.tsx:82-86 | the posted permissions are exactly the selection, with the name and description as typed |
| RoleForm.SubmittedSelectionIsGranted | src/app/dashboard/roles/create/page.tsx:77-94 | a successful submission grants the new role exactly the selected permissions, in order |
| RoleForm.PageEffect | src/app/dashboard/roles/create/page.tsx:38-70 | a signed-in user with a claim loads the permissions iff `roles:create` is held |
| UserForm.SetName | src/app/dashboard/users/create/page.tsx:120-121 | the name updater sets the name and keeps every other field |
| UserForm.SetEmail | src/app/dashboard/users/create/page.tsx:135-136 | the email updater sets the email and keeps every other field |
| UserForm.SetPassword | src/app/dashboard/users/create/page.tsx:150-151 | the password updater sets the password and keeps every other field |
| UserForm.CheckRole | src/app/dashboard/users/create/page.tsx:165-171 | checking appends the id, unchecking removes every occurrence, other ids keep their membership, and the text fields are unchanged |
| UserForm.TextUpdatersCommute | src/app/dashboard/users/create/page.tsx:120-151 | the three text updaters commute |
| UserForm.CheckRoleCommutesWithText | src/app/dashboard/users/create/page.tsx:120-171 | a role checkbox and a text updater commute |
| UserForm.CheckboxClickIsToggle | src/app/dashboard/users/create/page.tsx:164-171 | since a checkbox shows whether the id is selected, a click is the create-role page's toggle |
| UserForm.CheckThenUncheck | src/app/dashboard/users/create/page.tsx:165-171 | checking and then unchecking a role leaves the other ids as they were, in order |
| UserForm.PageEffect | src/app/dashboard/users/create/page.tsx:37-62 | a signed-in user with a claim loads the roles iff `users:create` is held |
| UserForm.WithoutUsersCreateRedirected | src/app/dashboard/users/create/page.tsx:44-47 | a signed-in user without `users:create` is sent to `/dashboard/users` and never reaches the form's data |

## Left out

- HTTP and framework plumbing is not modelled: `NextResponse`, `getServerSession`, `req.json()` and URL parsing. The session is an `Option` input, the body a record and the path a string.
- The Prisma client and its singleton (`src/lib/db.ts`, `src/lib/prisma.ts`) are not part of this model. Database I/O is the in-memory store, and an I/O failure is the `fault` flag.
- bcrypt's `compare` and `hash`, `crypto.randomUUID()` and `new Date()` are parameters or dropped (see above).
- Concurrency is not modelled: handlers run one at a time, so the check-then-insert races in the roles and permissions routes cannot happen in the model.
- `RolesApi.PostRole` does not model a collision of the composite grant id `<roleId>_<permissionId>` (src/app/api/roles/route.ts:149), because role ids are fresh UUIDs without underscores, and `RolesApi.GrantIdDeterminesPair` shows the id is then determined by the (role, permission) pair, which is already unique. The store's constraints (`Tables.Valid`) therefore carry no primary key on grant ids.
- `RolesApi.PatchRole` likewise does not model a collision of the composite id a PATCH insert gives (src/app/api/roles/route.ts:246-253). The role id there is an existing one, and `RolesApi.GrantIdCollision` shows that an underscore in it would let two different pairs share an id; the database would then refuse the second insert, which the model lets through.
- `Auth.Jwt`: the update payload is limited to the six session-user fields. In the source, `{ ...token, ...session.user }` would overwrite any token key that `session.user` carries.
- `Ordering.SortBy` compares names code point by code point (Dafny characters are Unicode scalar values). This agrees with a UTF-16 code-unit comparison except between characters outside the Basic Multilingual Plane and characters above U+E000. The database's collation for `orderBy: { name: 'asc' }` is not modelled.
- The roles GET collection branch uses `prisma` without importing it (src/app/api/roles/route.ts:69). The model follows the intended listing transform at lines 80-85.
- The source spells the join tables both `rolepermission`/`userrole` and `rolePermission`/`userRole`. The model has one grant table and one assignment table.
- The PATCH response after the writes (src/app/api/roles/route.ts:259-271) re-reads the role and then returns the `update` result. The model returns the updated role and does not model the unused re-read.
- Seed.UserRoleGrantsExactly, Seed.ManagerRoleGrantsExactly, Seed.RegularUserMayNotReadRoles: "exactly" holds on an empty database only, because an upsert with an empty `update` keeps whatever grants an existing database already has. On any store, `Seed.SeedGrantsExact` states the grants the script adds to those already present.
- The seed's `console.log`, `$disconnect` and `process.exit` are not modelled. The route handlers' console logging is not modelled either.
- JWT and cookie issuance and expiry (`maxAge`, src/lib/auth.ts:11) are outside the model. So are the adapter and the sign-in page option.
- `cn` (src/lib/utils.ts:4-6) is a class-name helper over clsx and tailwind-merge and is not modelled.
- Rendering, routing and fetch calls of the pages are not modelled, and neither are their loading flags and error messages. The pages whose only logic is a `hasPermission` gate are not modelled: the dashboard, roles list, users list, create-permission, login and home pages, and the navbar.
- The create-user page's POST target (`/api/users` POST) is not part of this model, so `UserForm` stops at the form data it would send.
