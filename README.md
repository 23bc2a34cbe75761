# Teens school CRM: the medal ledger and its rules

The Teens CRM is a small school-management system. Administrators keep groups,
students, attendance and a marketplace. Students earn gold, silver and bronze
medals and spend them on products. This project is a Dafny model of the part of
the system that does real bookkeeping:

- **The in-memory store** (`MemStorage`): seven keyed collections, all changed
  in place: users, groups, students, attendance, medals, products and
  purchases. Here the store is a class with seven `map` fields
  (`storage.dfy`). Each student carries three medal balances, and three
  operations keep them in step with history:
  - awarding a medal adds one to the matching balance;
  - revoking a medal takes one away, never going below 0;
  - recording a purchase takes away what it spends, each balance clamped at 0.

  The arithmetic of these changes is stated once, as functions on a student
  record (`ledger.dfy`). The store's methods are proved to write exactly that.
- **The request handlers** of the Express server (`routes.dfy`). These cover
  the login check, the purchase guard, the 404 mappings, the attendance-filter
  precedence and the dashboard statistics.
- **The second deployment** of the same API (`vercel_api.dfy`). It records a
  purchase without checking the balances.
- **Two student pages** that re-implement the same rules on the client:
  - the marketplace's affordability test, price badges, in-stock filter and
    purchase request (`marketplace.dfy`);
  - the attendance page's counts, rate and newest-first history
    (`attendance_page.dfy`).

Supporting modules:

- `schema.dfy` holds the records of the database schema. Nullable columns
  are `Option`s, read as `x || 0` where the code does so.
- `http.dfy` holds a handler's answer as a datatype: 200, 201, 400, 401 or
  404 with its message.
- `runtime.dfy` holds the JavaScript built-ins the rules use. These are
  `Math.max(0, x)`, `Math.round` of a percentage, and the decimal text of a
  number.

Ids come from `randomUUID` in the source. Here each creating operation takes
the new id as a parameter that is not yet a key of its map. Balances and
prices are unbounded integers. The schema allows negative values, so the
model does not rule them out.

What is proved, in outline:

- **Ledger** (`Ledger.Award`, `Ledger.Revoke`, `Ledger.Deduct`,
  `Storage.MemStorage.CreateMedal` and its neighbours):
  - an award or a revocation changes only the balance of its medal type, a
    purchase rewrites all three balances, and no other student changes;
  - revoking an award gives back every balance that was not negative (the
    clamp at 0 cannot restore a negative one);
  - for a non-negative balance `b`, `n` awards then `m` revocations leave
    `max(0, b + n - m)`;
  - no history of events makes a non-negative balance negative.
- **Purchase guard**:
  - it rejects a purchase exactly when some balance is short;
  - behind it, the store's clamp never fires, so every balance ends at exactly
    `balance - spent`;
  - the second deployment lacks this guard, so an over-spending purchase
    there is recorded and leaves 0.
- **Client and server agree**:
  - the marketplace's `canAfford` is the same predicate as the server guard
    on the request the page sends;
  - the attendance page's rate equals the dashboard's rate on the same
    records.
- **Presentation**:
  - the dashboard and page rates lie in 0..100; the dashboard renders its
    rate with a trailing `%`, and the text reads back as the number;
  - the history sort yields a newest-first permutation.

## Model

| member | source | states |
|---|---|---|
| Ledger.Award | server/storage.ts:314-324 | the balance named by the medal type rises by exactly 1 (null read as 0), the other two and every non-balance field are unchanged, and a type other than gold/silver/bronze changes nothing |
| Ledger.Revoke | server/storage.ts:335-346 | the matching balance becomes max(0, balance - 1); the other two and every non-balance field are unchanged; an unknown type changes nothing |
| Ledger.Deduct | server/storage.ts:414-422 | each balance becomes max(0, balance - spent) with nulls read as 0, so none is negative or null afterwards; identity fields unchanged |
| Ledger.DeductExactIff | server/storage.ts:417-419 | a deducted balance equals balance - spent exactly when spent <= balance, and is 0 otherwise |
| Ledger.RevokeUndoesAward | server/storage.ts:314-346 | awarding and then revoking the same medal restores every non-negative balance; the record itself is restored when its balances were not null |
| Ledger.ReplayAppend | server/storage.ts:304-349 | replaying two histories in a row is replaying their concatenation |
| Ledger.ReplayKeepsNonNegative | server/storage.ts:304-425 | no sequence of awards, revocations and purchases makes a non-negative balance negative, and none changes the student's identity |
| Ledger.AwardsAddUp | server/storage.ts:314-324 | n awards of one type raise that balance by exactly n and leave the others |
| Ledger.RevokesSubtract | server/storage.ts:335-346 | m revocations of one type leave max(0, balance - m) |
| Ledger.AwardsThenRevokes | server/storage.ts:304-349 | n awards followed by m revocations of one type leave max(0, balance + n - m), the other balances untouched |
| Ledger.Repeat | server/storage.ts:304-349 | a history of n copies of one event has length n and holds only that event |
| Runtime.Max0 | server/storage.ts:339 | `Math.max(0, x)` is at least 0 and at least x, and is one of them |
| Runtime.RoundedPercent | server/routes.ts:353 | the rounded percentage r satisfies r <= 100*part/whole + 1/2 < r + 1; it is at most 100 when part <= whole, 100 when part = whole, 0 when part = 0 |
| Runtime.DecimalText | server/routes.ts:359 | the decimal text of a number is a non-empty string of digits with no leading zero |
| Runtime.DecimalRoundTrip | server/routes.ts:359 | the decimal text of n reads back as n |
| Runtime.PercentText | server/routes.ts:359 | `${n}%` ends in '%' and its digits read back as n |
| Storage.MergeGroup | server/storage.ts:198-205 | `{ ...group, ...updates }` keeps the id, and an empty update gives the record back |
| Storage.MergeStudent | server/storage.ts:245-252 | the merge keeps the id and the status, and an empty update gives the record back |
| Storage.MergeAttendance | server/storage.ts:286-293 | the merge keeps the id, and an empty update gives the record back |
| Storage.MergeProduct | server/storage.ts:377-384 | the merge keeps the id, and an empty update gives the record back |
| Storage.MergeGroupOverwritesSupplied | server/storage.ts:198-205 | for each of name, description, schedule, capacity and status, a supplied field takes the supplied value and an absent one keeps its own |
| Storage.MergeAttendanceOverwritesSupplied | server/storage.ts:286-293 | for each of studentId, groupId, date, status and notes, a supplied field takes the supplied value and an absent one keeps its own |
| Storage.MergeProductOverwritesSupplied | server/storage.ts:377-384 | for each of name, description, image, the three prices and inStock, a supplied field takes the supplied value and an absent one keeps its own |
| Storage.MergeStudentOverwritesSupplied | server/storage.ts:245-252 | for each of userId, studentId, groupId and the three balances, a supplied field takes the supplied value and an absent one keeps its own; two updates in a row act as one in which the later wins |
| Storage.UpdatesMatchLedger | server/storage.ts:316-420 | the partial updates the store builds for an award, a revocation and a purchase, merged into the student, are exactly Award, Revoke and Deduct |
| Storage.ById | server/storage.ts:151 | every key of the map filled by `forEach(p => set(p.id, p))` holds a product with that id |
| Storage.ByIdStoresEvery | server/storage.ts:151 | every listed product's id is a key, every key holds a listed product, and a product whose id does not recur later is stored itself (the later `set` wins) |
| Storage.SeedById | server/storage.ts:115-151 | the three seeded products end up under their three ids |
| Storage.MemStorage.constructor | server/storage.ts:61-152 | the store starts with the seeded admin and student users, the React Fundamentals group, student TIT-2024-001 with 3/5/8 medals and status active, the three products, and nothing else |
| Storage.MemStorage.GetUser | server/storage.ts:155-157 | a user is found exactly when the id is a key, and it is the stored one |
| Storage.MemStorage.GetUserByEmail | server/storage.ts:159-161 | nothing is found exactly when no user has the email; otherwise a stored user with that email |
| Storage.MemStorage.CreateUser | server/storage.ts:163-172 | the new user is stored under its fresh id and nothing else changes |
| Storage.MemStorage.GetGroup | server/storage.ts:179-181 | a group is found exactly when the id is a key, and it is the stored one |
| Storage.MemStorage.CreateGroup | server/storage.ts:183-196 | the group is stored with missing optional fields null, under its fresh id |
| Storage.MemStorage.UpdateGroup | server/storage.ts:198-205 | undefined and no change for an unknown id; otherwise the merged record replaces the old one and no other group changes |
| Storage.MemStorage.DeleteGroup | server/storage.ts:207-209 | returns true exactly when the id was present, and the id is absent afterwards with every other group kept |
| Storage.MemStorage.GetStudent | server/storage.ts:216-218 | a student is found exactly when the id is a key, and it is the stored one |
| Storage.MemStorage.GetStudentByUserId | server/storage.ts:220-222 | nothing is found exactly when no student has that userId; otherwise a stored student with it |
| Storage.MemStorage.GetStudentByStudentId | server/storage.ts:224-226 | nothing is found exactly when no student has that code; otherwise a stored student with it |
| Storage.MemStorage.CreateStudent | server/storage.ts:228-243 | the student is stored with missing optional fields null, under its fresh id |
| Storage.MemStorage.UpdateStudent | server/storage.ts:245-252 | undefined and no change for an unknown id; otherwise the merged record replaces the old one and no other student changes |
| Storage.MemStorage.DeleteStudent | server/storage.ts:254-256 | returns true exactly when the id was present, and the id is absent afterwards |
| Storage.MemStorage.AttendanceByStudent | server/storage.ts:263-265 | exactly the records whose studentId matches, unchanged |
| Storage.MemStorage.AttendanceByGroup | server/storage.ts:267-269 | exactly the records whose groupId matches, unchanged |
| Storage.MemStorage.CreateAttendance | server/storage.ts:271-284 | the record is stored under its fresh id, notes null when missing |
| Storage.MemStorage.UpdateAttendance | server/storage.ts:286-293 | undefined and no change for an unknown id; otherwise the merged record replaces the old one |
| Storage.MemStorage.MedalsByStudent | server/storage.ts:300-302 | exactly the medals whose studentId matches, unchanged |
| Storage.MemStorage.CreateMedal | server/storage.ts:304-328 | the medal is always stored; an existing student gets Award of the medal type and no other student changes; with no such student no student changes |
| Storage.MemStorage.DeleteMedal | server/storage.ts:330-349 | false and no change for an unknown id; otherwise the student, if it still exists, gets Revoke of the medal's type, and the medal is removed even when the student is gone |
| Storage.MemStorage.GetProduct | server/storage.ts:356-358 | a product is found exactly when the id is a key, and it is the stored one |
| Storage.MemStorage.CreateProduct | server/storage.ts:360-375 | the product is stored under its fresh id with missing optional fields null, `inStock` included |
| Storage.MemStorage.UpdateProduct | server/storage.ts:377-384 | undefined and no change for an unknown id; otherwise the merged record replaces the old one |
| Storage.MemStorage.DeleteProduct | server/storage.ts:386-388 | returns true exactly when the id was present, and the id is absent afterwards |
| Storage.MemStorage.PurchasesByStudent | server/storage.ts:395-397 | exactly the purchases whose studentId matches, unchanged |
| Storage.MemStorage.CreatePurchase | server/storage.ts:399-425 | the purchase is always stored whatever the balances; an existing student gets Deduct and no other student changes |
| Routes.CheckCredentials | server/routes.ts:12-25 | success exactly when a user was found and its password equals the given one; the answer carries id, email, role and name and no password; otherwise 401 "Invalid credentials" |
| Routes.Login | server/routes.ts:8-29 | 401 when no user with the email has that password; success only for a stored user with that email and password, and success whenever every user with the email has it |
| Routes.PutGroup | server/routes.ts:55-69 | 404 "Group not found" and no change for an unknown id; otherwise 200 with the merged group, which is stored |
| Routes.DeleteGroup | server/routes.ts:71-84 | 404 "Group not found" for an unknown id, otherwise the success message; the id is absent afterwards |
| Routes.WithRelations | server/routes.ts:91-99 | the student with its user, and with its group only when groupId is non-empty and names a stored group |
| Routes.StudentsWithRelations | server/routes.ts:87-108 | every stored student, each with its relations |
| Routes.CurrentStudent | server/routes.ts:110-133 | 400 "User ID required" without a userId, 404 "Student not found" when no student has it, otherwise a stored student with that userId and its relations |
| Routes.PutStudent | server/routes.ts:145-160 | 404 "Student not found" and no change for an unknown id; otherwise 200 with the merged student, which is stored |
| Routes.AttendanceQuery | server/routes.ts:162-179 | a studentId filter wins over a groupId filter; each returns exactly the matching records; with neither, all records |
| Routes.MedalsQuery | server/routes.ts:192-222 | the medals of the given student, or all, each with its student, that student's user and the awarding user when they exist |
| Routes.PostMedal | server/routes.ts:224-232 | 201 with the new medal; the store changes as CreateMedal says |
| Routes.DeleteMedal | server/routes.ts:234-248 | 404 "Medal not found" and no change for an unknown id; otherwise the success message, only that medal is removed, its student (if it still exists) gets Revoke, and with the student gone no student changes |
| Routes.PutProduct | server/routes.ts:269-283 | 404 "Product not found" and no change for an unknown id; otherwise 200 with the merged product |
| Routes.DeleteProduct | server/routes.ts:285-299 | 404 "Product not found" for an unknown id, otherwise the success message; the id is absent afterwards |
| Routes.PurchasesQuery | server/routes.ts:301-316 | exactly the purchases of the given student, or all without a filter |
| Routes.HasEnoughMedals | server/routes.ts:328-331 | the guard holds exactly when every balance covers what is spent of its kind, nulls read as 0 |
| Routes.EveryKindCovered | server/routes.ts:328-331 | the three written comparisons are the per-kind statement |
| Routes.GuardMakesClampIdle | server/routes.ts:328-337 | behind the guard every balance ends at exactly balance - spent |
| Routes.GuardAdmitsNegativeSpend | server/routes.ts:328-337 | a negative spend passes the guard and raises that balance |
| Routes.PostPurchase | server/routes.ts:318-342 | 404 "Student not found" and no change for an unknown student; 400 "Insufficient medals" and no change when some balance is short; otherwise 201 with the purchase built from the payload under the fresh id, which is stored, and each balance is exactly balance - spent |
| Routes.PresentIds | server/routes.ts:352 | the present records are among all records, so there are at most as many |
| Runtime.SubsetCardinality | server/routes.ts:352 | a subset is no larger than its superset |
| Routes.AttendanceRate | server/routes.ts:353 | 0 with no records; otherwise round-half-up of 100 * present / total, within 0..100, and 100 when every record is present |
| Routes.Stats | server/routes.ts:345-366 | totalGroups, totalStudents and medalsAwarded are the collection sizes, and attendanceRate is the rate's decimal text followed by '%' |
| Routes.MedalLifecycleScenario | server/storage.ts:304-425 | on a fresh store a new student awarded one gold has gold 1, after the revocation gold 0, and a purchase costing one gold is then refused with nothing recorded |
| Routes.AdminLoginScenario | server/routes.ts:8-29 | on a fresh store the seeded admin logs in with role admin, and a wrong password gets 401 |
| VercelApi.Login | api/index.ts:11-31 | the same credential rule as the server: 401 when no user with the email has that password; success only for a stored user with that email and password, answered with its id, email, role and name; and success whenever every user with the email has it |
| VercelApi.Students | api/index.ts:89-96 | the stored students, nothing inlined |
| VercelApi.DeleteStudent | api/index.ts:124-137 | 404 "Student not found" for an unknown id, otherwise the success message; the id is absent afterwards |
| VercelApi.PostPurchase | api/index.ts:206-214 | always 201 with the purchase built from the payload, which is stored with no balance check; an existing student gets the clamped Deduct, and with no such student no student changes |
| VercelApi.DeploymentsDisagreeOnOverspending | api/index.ts:206-214 | for any kind of medal, a purchase spending more of it than the student has is refused by the server guard, yet this deployment records it and leaves that balance at 0, not balance - spent |
| VercelApi.DeploymentsAgreeBehindGuard | api/index.ts:206-214 | whenever the server guard accepts, the unchecked path leaves the same exact balances |
| VercelApi.ActiveIds | api/index.ts:231 | exactly the students whose status is 'active', no more than there are students |
| VercelApi.Stats | api/index.ts:217-238 | the four totals are collection sizes and activeStudents counts the active students, never more than totalStudents |
| VercelApi.ActiveStudentsScenario | api/index.ts:231 | a fresh store has one active student; a student created afterwards without a status is not counted |
| Marketplace.CanAfford | client/src/pages/student/marketplace.tsx:75-83 | false with no student loaded; otherwise true exactly when every balance covers the matching price, nulls read as 0 |
| Marketplace.CoversEveryKind | client/src/pages/student/marketplace.tsx:78-82 | the three written comparisons are the per-kind statement |
| Marketplace.RequestPurchase | client/src/pages/student/marketplace.tsx:35-44 | throws "Student not found" exactly when no student is loaded; otherwise sends the student's and product's ids and spends exactly the three prices, null sent as 0 |
| Marketplace.PayloadSpendsPrices | client/src/pages/student/marketplace.tsx:39-43 | the request spends each price of the product |
| Marketplace.CanAffordIsServerGuard | client/src/pages/student/marketplace.tsx:75-83 | canAfford for a loaded student equals the server guard on the request the page sends |
| Marketplace.AffordablePurchaseCostsThePrice | client/src/pages/student/marketplace.tsx:35-83 | buying an affordable product lowers each balance by exactly its price |
| Marketplace.FreeIsAffordable | client/src/pages/student/marketplace.tsx:78-82 | a product with no positive price is affordable for any student whose balances are not negative |
| Marketplace.AllBadgesShowPositivePrices | client/src/pages/student/marketplace.tsx:85-111 | the badges show each positive price once and nothing else, and there are none exactly when the product is free |
| Marketplace.AppendOrdered | client/src/pages/student/marketplace.tsx:85-111 | badges in rank order followed by higher-ranked badges are in rank order |
| Marketplace.AllBadgesOrdered | client/src/pages/student/marketplace.tsx:85-111 | the badges come in gold, silver, bronze order |
| Marketplace.MedalDisplay | client/src/pages/student/marketplace.tsx:85-111 | "Free" exactly when no price is positive; otherwise one badge per positive price with that amount, in gold, silver, bronze order |
| Marketplace.InStockOnly | client/src/pages/student/marketplace.tsx:158-159 | exactly the products whose inStock is true, never more than there are; a null or false flag is not offered |
| Marketplace.InStockOnlyDistributes | client/src/pages/student/marketplace.tsx:158-159 | filtering a concatenation concatenates the filtered parts, and a single product is kept exactly when it is in stock, so order and multiplicity are kept |
| Marketplace.InStockOnlyIdempotent | client/src/pages/student/marketplace.tsx:158-159 | filtering twice is filtering once |
| AttendancePage.CountStatus | client/src/pages/student/attendance.tsx:46-48 | a status count is at most the number of records |
| AttendancePage.StatusCountsBounded | client/src/pages/student/attendance.tsx:45-48 | present + late + absent is at most totalClasses, and equal when every status is one of the three |
| AttendancePage.Stats | client/src/pages/student/attendance.tsx:45-49 | all zero when nothing is loaded; otherwise the record count, the three status counts, and a rate in 0..100 that is 0 with no classes and otherwise round-half-up of 100 * present / total |
| AttendancePage.TailEnumerates | client/src/pages/student/attendance.tsx:45-49 | a listing of distinct stored records stays one without its first entry |
| AttendancePage.CountMatchesKeys | client/src/pages/student/attendance.tsx:46 | counting a status over a listing of distinct stored records gives the number of stored records with it |
| AttendancePage.DistinctKeysCount | client/src/pages/student/attendance.tsx:45 | a listing of distinct keys is as long as the set of its keys |
| AttendancePage.PageRateMatchesDashboard | client/src/pages/student/attendance.tsx:49 | on a listing of the stored records the page's rate equals the dashboard's rate of server/routes.ts:353 |
| AttendancePage.InsertByDate | client/src/pages/student/attendance.tsx:128-129 | inserting a record adds exactly that record |
| AttendancePage.InsertKeepsNewestFirst | client/src/pages/student/attendance.tsx:128-129 | inserting into a newest-first list keeps it newest first |
| AttendancePage.SortByDateDesc | client/src/pages/student/attendance.tsx:128-129 | the sorted history holds the same records and is newest first |
| AttendancePage.SortKeepsSortedList | client/src/pages/student/attendance.tsx:128-129 | a history already newest first is left as it is |

## Left out

- Insertion order of the JavaScript `Map`s is not modelled. List getters return maps, and `find` may return any matching record. With duplicate emails or userIds (the store does not enforce the schema's `unique`), the model does not say which match wins.
- Schema parsing (zod, drizzle) and the resulting 400 answers are not modelled. Payloads are taken as parsed. The student insert schema has no `status` column, so over HTTP a new student's status is always null. `Storage.MemStorage.CreateStudent` still accepts one, as the store does.
- The 500 answers (`catch` around a store call that cannot throw here) are not modelled, and neither is POST /api/auth/logout, which only answers a fixed message.
- The POST handlers for users, groups, students, attendance and products, and the GET list handlers without filters, only forward to the store. The store methods that model them are listed above. The GET product and group lists are the maps themselves.
- `createdAt` timestamps (`new Date()`) and `randomUUID` are left out. Fresh ids are parameters that must not already be keys.
- Runtime.RoundedPercent: `Math.round` of a floating-point quotient is modelled as exact round-half-up of the rational `100 * part / whole`. Floating-point error at a .5 boundary is not modelled.
- AttendancePage.SortByDateDesc: JavaScript's sort is stable. The insertion sort modelled here also keeps records of equal date in order, but no lemma states stability. The in-place update of the fetched array is modelled as returning a new list.
- Marketplace.CanAfford takes the student record the page loaded. The React Query state, dialogs, toasts and cache invalidation around it are not modelled, and neither is the JSX.
- The dashboard and pages of the admin side, the login page, layouts and the Vercel request wrapper are not part of this model.

## Notes on the code

These points come from the code as written. The model follows the code, including where `shared/schema.ts` declares column defaults that `MemStorage` does not apply.

- Column defaults are not applied by the store. It writes `?? null`, so the following are null, not their schema defaults:
  - a group created without capacity or status (default 30 and 'active');
  - a product created without `inStock` (default true);
  - a purchase created without a status (default 'completed');
  - a student created without balances (default 0).

  Nulls read as 0 in every balance and price computation. A product with a null `inStock` is not offered by the marketplace page (`Marketplace.InStockOnly`).
- Balances, prices and spends are unconstrained integers:
  - `updateStudent` can write a negative balance;
  - a negative spend passes the server's guard and raises that balance (`Routes.GuardAdmitsNegativeSpend`);
  - a free product (no positive price) is affordable whenever the student's balances are not negative (`Marketplace.FreeIsAffordable`); with negative prices or balances either outcome is possible.
- The second deployment (api/index.ts) has no affordability check. There, the store's clamp at 0 is the only protection, and an over-spending purchase is recorded (`VercelApi.DeploymentsDisagreeOnOverspending`).
