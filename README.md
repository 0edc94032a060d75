# daily-diet-api in Dafny

A model of the daily-diet API, a REST service where users sign up and sign in, and
then record the meals they eat. Each meal is marked as on or off the diet. The
service also reports metrics over a user's meals. The model covers five parts:

- **Streak analyzer** (`streak.dfy`). It finds the longest run of consecutive
  calendar days in a list of dates. It is a method with the source's loop (same-day
  pairs skipped, a gap resets the run to zero, early return at the last date). It is
  proved equal to a recursive specification, `Scan`/`BestSequence`. Lemmas pin down
  its quirks: an empty list gives 1, it does not sort, and the run after a gap is
  counted one short.
- **Meals table schema** (`schema.dfy`). It covers the meal and user rows, the
  primary key and the foreign key on `user_id`, and the `is_diet` default. The
  default is assumed to apply to a create without `isDiet` (see Left out). It also
  has the knex `where({...})` filter with its select and delete.
- **Token check** (`auth.dfy`). Every guarded handler runs it inline: a missing or
  empty `token` cookie, or a token that decodes to nothing, gives 401. Decoding does
  not verify the signature.
- **Meal routes** (`meals.dfy`). A `MealsTable` class holds the table's rows and has
  one method per handler: create, list, read, update and delete. Each is scoped to
  the caller's own rows.
- **User routes** (`users.dfy`). Signup inserts into a `UsersTable` class. Signin is
  a function over the users table. Metrics counts the caller's meals by `is_diet` and
  runs the streak analyzer over the caller's diet days, sorted ascending.

Modelling choices:

- Dates are whole day numbers. "Same calendar day" is equality and "next day" is
  the successor.
- Request-body fields are `Absent`, `Malformed` or `Given(value)`, as the schema
  validator sees them.
- Replies carry a status, the error message ("" when there is none) and an
  optional payload.
- bcrypt's hash and compare, and jwt's sign and decode, are uninterpreted functions
  passed in as `Crypto` or `decode`. So is the validator's e-mail check (`isEmail`).
- The random UUID a handler draws and bcrypt's random salt are parameters.
- An insert that would break the primary key or the declared foreign key answers
  `InternalError` (500) and stores nothing. This stands for the exception the
  database raises, which the handler does not catch.

## Model

| member | source | states |
|---|---|---|
| Common.First | src/routes/users.routes.ts:52 | `.first()`: no result exactly when no row satisfies the predicate; otherwise the row at the first index that does |
| Streak.BestSequenceOfDates | src/utils/date.utils.ts:3-29 | the loop (same-day `continue`, reset to 0 on a gap, early return at the last date) returns exactly `BestSequence(days)` |
| Streak.Scan | src/utils/date.utils.ts:4-26 | after the loop has seen every adjacent pair: 0 <= current <= best, and 1 <= best <= 1 + number of next-day pairs |
| Streak.BestSequence | src/utils/date.utils.ts:3-29 | the result is at least 1 and at most max(1, length), and at most 1 + the number of next-day pairs |
| Streak.ShortInputsGiveOne | src/utils/date.utils.ts:4-10 | an empty list and a one-date list both give 1 |
| Streak.ScanCongruence | src/utils/date.utils.ts:6-26 | two prefixes with equal counters that end on the same day stay equal whatever dates follow |
| Streak.DuplicateDayLeavesResultUnchanged | src/utils/date.utils.ts:12 | repeating a date in place leaves the result unchanged |
| Streak.GapResetsRunToZero | src/utils/date.utils.ts:14-19 | a pair that is neither same-day nor next-day sets the current run to 0 (not 1) and keeps the best |
| Streak.GapExamples | src/utils/date.utils.ts:12-25 | [d,d+2,d+3] gives 1, [d,d+1,d+3] gives 2, [d,d+1] gives 2, [d,d] gives 1 |
| Streak.UnsortedInputIsNotSorted | src/utils/date.utils.ts:14-19 | descending dates [d+2,d+1,d] give 1 while ascending [d,d+1,d+2] give 3: no sorting happens |
| Streak.LinkedListReportsDaysSpanned | src/utils/date.utils.ts:12-25 | if every adjacent pair is same-day or next-day, the result is 1 + the next-day pairs = last - first + 1 |
| Streak.CurrentCoversTrailingRun | src/utils/date.utils.ts:12-25 | the current run covers a linked run that ends the list: at least its span less one, its full span if it starts the list |
| Streak.EveryRunIsReported | src/utils/date.utils.ts:4-28 | every linked run from i to j is reported: result >= s[j] - s[i], and >= s[j] - s[i] + 1 when the run starts the list |
| Streak.CurrentRunStart | src/utils/date.utils.ts:12-21 | the current run is the span of a linked run that ends the list, counted one short unless it starts the list |
| Streak.BestSequenceIsAttainedByARun | src/utils/date.utils.ts:4-28 | the result is the span of an actual linked run from i to j (one short unless i is 0); with `EveryRunIsReported` it is the largest such span |
| Schema.NewMeal | db/migrations/20230530174613_create-meals.ts:5-10 | an inserted row keeps every given column; a missing `is_diet` takes the default, false |
| Schema.OwnersExistAsUsersGrow | db/migrations/20230530174613_create-meals.ts:6 | adding users never breaks the `user_id` foreign key |
| Schema.Where | src/routes/meals.routes.ts:62 | a select returns exactly the rows that match every entry of the where-object; empty exactly when none matches |
| Schema.DeleteWhere | src/routes/meals.routes.ts:190 | a delete keeps exactly the rows that do not match |
| Schema.DeleteWhereKeepsIdsUnique | src/routes/meals.routes.ts:190 | deleting rows keeps the primary key unique |
| Schema.OwnerScopedWhere | src/routes/meals.routes.ts:99 | a query naming an owner gives the same rows as that query run over the owner's rows alone |
| Schema.OtherOwnersRowsAreInvisible | src/routes/meals.routes.ts:62 | two tables with the same rows for an owner answer every query naming that owner alike |
| Schema.DietCountsSplitTotal | src/routes/users.routes.ts:105-113 | the owner's row count equals the `is_diet = true` count plus the `is_diet = false` count |
| Schema.WhereAppend | src/routes/meals.routes.ts:34-41 | an appended row is selected exactly when it matches, after the rows already there |
| Auth.Authenticate | src/routes/meals.routes.ts:10-17 | an identity exists exactly when the cookie is present, non-empty and decodes; it is the decoded id |
| Auth.UnauthorizedReply | src/routes/meals.routes.ts:12 | the guard's reply is a 401 with no payload |
| Meals.InsertedMeal | src/routes/meals.routes.ts:32-41 | the inserted row has the fresh id and the token's user as owner, the body's fields, and is diet only if `isDiet` was true |
| Meals.Patch | src/routes/meals.routes.ts:149-158 | supplied fields take their new values; id, owner and every field not supplied keep the old ones |
| Meals.UpdateWhere | src/routes/meals.routes.ts:151-158 | same length and the same id and owner at every index; matching rows are patched, the rest are unchanged |
| Meals.UpdateKeepsKeys | src/routes/meals.routes.ts:151-158 | an update keeps the foreign key and the primary key |
| Meals.MealsTable.constructor | db/migrations/20230530174613_create-meals.ts:3-12 | the new table is empty and satisfies the primary-key invariant |
| Meals.MealsTable.Create | src/routes/meals.routes.ts:9-44 | 401 when unidentified, 400 on an invalid body, 500 on a key violation (table unchanged each time); otherwise 201 and exactly one row appended; the foreign key is kept |
| Meals.MealsTable.List | src/routes/meals.routes.ts:46-70 | 401 exactly when unidentified; 404 exactly when the caller owns no row; otherwise exactly the caller's rows, in table order |
| Meals.MealsTable.Get | src/routes/meals.routes.ts:72-107 | 401 exactly when unidentified; 404 exactly when no row has that id and the caller as owner; otherwise such a row |
| Meals.MealsTable.Update | src/routes/meals.routes.ts:109-161 | 401 or 400 with the table unchanged; otherwise 204, matched or not, with only the caller's row of that id patched and every other row unchanged |
| Meals.MealsTable.Delete | src/routes/meals.routes.ts:163-193 | 401 with the table unchanged; otherwise 204, matched or not; no matching row remains and every other row is kept |
| Meals.CreatedMealCanBeRead | test/meals.spec.ts:104-151 | creating a meal and then reading it by its id returns the inserted row |
| Meals.UpdatedMealShowsNewFields | test/meals.spec.ts:190-208 | after an update, reading the meal shows the patched row |
| Meals.DeletedMealIsNotFound | test/meals.spec.ts:248-253 | after a delete, reading that id gives 404 "meal not found" |
| Users.UsersTable.Signup | src/routes/users.routes.ts:12-36 | 400 on an invalid body and 500 on an id in use, with the table unchanged; otherwise 201 and one user appended holding the password's hash |
| Users.Signin | src/routes/users.routes.ts:38-73 | 400 on an invalid body; every 401 is "authentication error"; 200 exactly when the first user with that e-mail passes the password check; the cookie is `token`, path `/`, a token signed over that first user's id, maxAge 604800000 |
| Users.UnknownEmailAndWrongPasswordAlike | src/routes/users.routes.ts:52-62 | an unknown e-mail and a wrong password give the same reply |
| Users.SignupThenSignin | test/user.spec.ts:31-48 | signing in with the e-mail and password just signed up with succeeds and issues a token for the new user's id |
| Users.InsertAscending | src/routes/users.routes.ts:117 | inserting a day into an ascending list gives an ascending list with that day added |
| Users.SortAscending | src/routes/users.routes.ts:117 | `orderBy('date', 'asc')`: ascending, and a permutation of the input |
| Users.Dates | src/routes/users.routes.ts:120 | the dates of the rows, index by index |
| Users.DietDays | src/routes/users.routes.ts:114-120 | the dates of the owner's diet meals, ascending, as a permutation |
| Users.Summarize | src/routes/users.routes.ts:99-129 | total counts the owner's meals and diet the diet ones; total = diet + notDiet; 1 <= bestSequence <= max(1, diet) |
| Users.Metrics | src/routes/users.routes.ts:75-132 | 401 exactly when unidentified or no user has the token's id; otherwise 200 with the summary of that user's meals |
| Users.SummarySeesOnlyOwnersMeals | src/routes/users.routes.ts:105-117 | the summary depends only on the owner's rows |
| Users.NoDietMealsGiveBestSequenceOne | src/routes/users.routes.ts:114-121 | an owner without diet meals gets diet 0 and bestSequence 1 |
| Users.MealWithoutIsDietCountsAsNotDiet | db/migrations/20230530174613_create-meals.ts:10 | a meal stored without `isDiet` adds one to total and notDiet, and leaves diet and bestSequence |
| Users.ScenarioSort | test/user.spec.ts:76-98 | the diet days 29, 30, 28 sort to 28, 29, 30 |
| Users.ScenarioDays | test/user.spec.ts:76-98 | the scenario's diet days, sorted, are 28, 29, 30 |
| Users.ScenarioSummary | test/user.spec.ts:66-111 | the four scenario meals give total 4, diet 3, notDiet 1, bestSequence 3 |
| Users.MetricsScenario | test/user.spec.ts:50-111 | the metrics route answers 200 with those figures for the scenario's user |

## Left out

- HTTP and Fastify wiring, cookie parsing and reply serialisation. Replies are a status, a message and a payload. The `errors` detail of a 400 reply is not modelled.
- The `checkTokenExists` middleware is not part of this model. Only the inline token checks in each handler are modelled.
- JWT and bcrypt internals are uninterpreted functions. Decoding does not check signatures or expiry. A token that decodes to a payload without an `id` is not modelled.
- `comparePassword` in src/utils/crypt.utils.ts is left out. Nothing calls it, and it always resolves to undefined.
- The validator's e-mail format and date coercion are library code. E-mail validity is an uninterpreted `isEmail`, and dates arrive as day numbers.
- String lengths count characters, not UTF-16 code units.
- The route parameter `id`: its schema (`z.string()`) cannot fail once the route matched, so the 400 "invalid params" branch is not modelled.
- A request body that is not an object is not modelled. Each field is absent, malformed or given.
- The creation and update timestamps, which come from the clock.
- The date-fns local time zone and day boundaries.
- `Promise.all` in metrics runs its four reads in sequence in the model. They are independent reads.
- The database driver may return counts as strings; counts here are numbers.
- Meals.MealsTable.Update: a body that supplies no field is modelled as a 204 with every row unchanged. The query builder may instead reject an empty update.
- The users table migration is not part of this model. E-mail uniqueness is therefore not assumed: signup does not check it, and signin takes the first user with that e-mail.
- Meals.MealsTable.Create: the foreign key is modelled as enforced by the database; whether the configured database enforces it is not part of this model.
- Schema.NewMeal, Users.MealWithoutIsDietCountsAsNotDiet, Users.Summarize: the model assumes that a create without `isDiet` stores the column default, false. The handler passes the field as undefined (src/routes/meals.routes.ts:40). A driver that writes NULL for an undefined value would store a NULL `is_diet`. That row would count in `total` but in neither `diet` nor `notDiet`, and `total == diet + notDiet` would fail. The database connection setup is not part of this model.
- Common.First, Schema.Where, Meals.MealsTable.List: rows come back in the order they were inserted. The queries have no `orderBy` (src/routes/meals.routes.ts:62, src/routes/users.routes.ts:52), so SQL promises no order; insertion order is the model's choice. Which user `.first()` picks among several with the same e-mail rests on that choice.
- Meals.CreatedMealCanBeRead, Meals.UpdatedMealShowsNewFields, Meals.DeletedMealIsNotFound: their expected results come from test/meals.spec.ts, whose whole suite is skipped (`describe.skip`, line 6). They follow from the handlers' contracts, not from a suite that runs.
- The cookie's `maxAge` is kept as the number the code writes, 604800000. Its unit is not interpreted.
- The migration's `down`, configuration loading (src/env/index.ts), src/app.ts and the type declarations.
