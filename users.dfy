/**
 * The user routes: signup stores a user with a hashed password, signin checks the
 * password and issues the session token, metrics summarises the caller's meals.
 */
module Users {
  import opened Common
  import opened Schema
  import opened Auth
  import opened Streak

  datatype SignupBody = SignupBody(name: Field<string>, email: Field<string>, password: Field<string>)
  datatype SigninBody = SigninBody(email: Field<string>, password: Field<string>)

  /** The session cookie signin sets. */
  datatype Cookie = Cookie(name: string, value: Token, path: string, maxAge: int)

  /** The metrics the caller receives. */
  datatype Summary = Summary(total: nat, diet: nat, notDiet: nat, bestSequence: int)

  const MinCredentialLength := 4
  const MaxCredentialLength := 32
  const AuthenticationErrorMessage := "authentication error"
  const SessionCookieName := "token"
  const SessionCookiePath := "/"
  /** Seven days, written as milliseconds. */
  const SessionMaxAge := 1000 * 60 * 60 * 24 * 7

  /** A name or password of 4 to 32 characters. */
  predicate ValidCredential(s: string) {
    MinCredentialLength <= |s| <= MaxCredentialLength
  }

  /** The signup schema; `isEmail` is the validator's e-mail check. */
  predicate ValidSignupBody(b: SignupBody, isEmail: string -> bool) {
    && b.name.Given? && ValidCredential(b.name.value)
    && b.email.Given? && isEmail(b.email.value)
    && b.password.Given? && ValidCredential(b.password.value)
  }

  /** The signin schema. */
  predicate ValidSigninBody(b: SigninBody, isEmail: string -> bool) {
    && b.email.Given? && isEmail(b.email.value)
    && b.password.Given? && ValidCredential(b.password.value)
  }

  /** `where({ email })` over the users table. */
  function EmailIs(email: string): User -> bool {
    (u: User) => u.email == email
  }

  /** `where({ id })` over the users table. */
  function IdIs(id: UserId): User -> bool {
    (u: User) => u.id == id
  }

  /** The users table. */
  class UsersTable {
    var rows: seq<User>

    ghost predicate Valid()
      reads this
    {
      UniqueUserIds(rows)
    }

    constructor ()
      ensures Valid() && rows == []
    {
      rows := [];
    }

    /** POST /users/signup. A valid body inserts one user with the fresh id and the
        password's hash (drawn with `salt`), never the password itself. Nothing
        checks that the e-mail is new. An id already in use violates the primary
        key: the insert throws and nothing is stored. */
    method Signup(body: SignupBody, isEmail: string -> bool, crypto: Crypto, salt: Salt, freshId: UserId)
      returns (reply: Reply<()>)
      requires Valid()
      modifies this
      ensures Valid()
      ensures !ValidSignupBody(body, isEmail) ==>
                reply == Reply(BadRequest, InvalidBodyMessage, None) && rows == old(rows)
      ensures ValidSignupBody(body, isEmail) && UserIdInUse(old(rows), freshId) ==>
                reply.status == InternalError && rows == old(rows)
      ensures reply.status == Created <==> ValidSignupBody(body, isEmail) && !UserIdInUse(old(rows), freshId)
      ensures reply.status == Created ==>
                reply.body.None?
                && rows == old(rows) + [User(freshId, body.name.value, body.email.value,
                                             crypto.hash(body.password.value, salt))]
    {
      if !ValidSignupBody(body, isEmail) {
        return Reply(BadRequest, InvalidBodyMessage, None);
      }
      if UserIdInUse(rows, freshId) {
        return Reply(InternalError, "", None);
      }
      var passwordHashed := crypto.hash(body.password.value, salt);
      forall u | u in rows ensures u.id != freshId {
      }
      rows := rows + [User(freshId, body.name.value, body.email.value, passwordHashed)];
      reply := Reply(Created, "", None);
    }
  }

  /** POST /users/signin. The first user with the e-mail is looked up; a missing
      user and a wrong password give the same 401. On success the reply sets the
      `token` cookie to a token signed over the user's id. */
  function Signin(users: seq<User>, body: SigninBody, isEmail: string -> bool, crypto: Crypto): (r: Reply<Cookie>)
    ensures !ValidSigninBody(body, isEmail) ==> r == Reply(BadRequest, InvalidBodyMessage, None)
    ensures r.status == Unauthorized ==> r == Reply(Unauthorized, AuthenticationErrorMessage, None)
    ensures r.status == Ok <==>
              ValidSigninBody(body, isEmail) && First(users, EmailIs(body.email.value)).Some?
              && crypto.compare(body.password.value, First(users, EmailIs(body.email.value)).value.password)
    ensures r.status == Ok ==>
              r == Reply(Ok, "", Some(Cookie(SessionCookieName,
                                             crypto.sign(First(users, EmailIs(body.email.value)).value.id),
                                             SessionCookiePath, 604800000)))
    ensures r.status in {Ok, BadRequest, Unauthorized}
  {
    if !ValidSigninBody(body, isEmail) then Reply(BadRequest, InvalidBodyMessage, None)
    else match First(users, EmailIs(body.email.value))
      case None => Reply(Unauthorized, AuthenticationErrorMessage, None)
      case Some(user) =>
        if !crypto.compare(body.password.value, user.password) then
          Reply(Unauthorized, AuthenticationErrorMessage, None)
        else
          Reply(Ok, "", Some(Cookie(SessionCookieName, crypto.sign(user.id), SessionCookiePath, SessionMaxAge)))
  }

  /** An unknown e-mail and a known e-mail with a wrong password are answered
      identically, so a reply does not tell which of the two was wrong. */
  lemma UnknownEmailAndWrongPasswordAlike(users1: seq<User>, users2: seq<User>, body: SigninBody,
                                          isEmail: string -> bool, crypto: Crypto, user: User)
    requires ValidSigninBody(body, isEmail)
    requires forall u :: u in users1 ==> u.email != body.email.value
    requires First(users2, EmailIs(body.email.value)) == Some(user)
    requires !crypto.compare(body.password.value, user.password)
    ensures Signin(users1, body, isEmail, crypto) == Signin(users2, body, isEmail, crypto)
    ensures Signin(users1, body, isEmail, crypto) == Reply(Unauthorized, AuthenticationErrorMessage, None)
  {
    var p := EmailIs(body.email.value);
    assert forall k :: 0 <= k < |users1| ==> !p(users1[k]) by {
      forall k | 0 <= k < |users1| ensures !p(users1[k]) {
        assert users1[k] in users1;
      }
    }
  }

  /** Signing up and then signing in with the same e-mail and password succeeds and
      issues a token for the new user, provided no earlier user has that e-mail and
      the password check accepts the hash of the password it was made from. */
  lemma SignupThenSignin(users: seq<User>, signup: SignupBody, isEmail: string -> bool,
                         crypto: Crypto, salt: Salt, id: UserId)
    requires ValidSignupBody(signup, isEmail)
    requires forall u :: u in users ==> u.email != signup.email.value
    requires crypto.compare(signup.password.value, crypto.hash(signup.password.value, salt))
    ensures Signin(users + [User(id, signup.name.value, signup.email.value,
                                 crypto.hash(signup.password.value, salt))],
                   SigninBody(signup.email, signup.password), isEmail, crypto)
         == Reply(Ok, "", Some(Cookie(SessionCookieName, crypto.sign(id), SessionCookiePath, SessionMaxAge)))
  {
    var newUser := User(id, signup.name.value, signup.email.value, crypto.hash(signup.password.value, salt));
    var all := users + [newUser];
    var p := EmailIs(signup.email.value);
    var found := First(all, p);
    assert p(all[|users|]);
    assert found.Some?;
    var k :| 0 <= k < |all| && all[k] == found.value && p(all[k]) && forall j :: 0 <= j < k ==> !p(all[j]);
    assert k == |users|;
  }

  /** Days in ascending order. */
  predicate Ascending(s: seq<Day>) {
    forall i, j :: 0 <= i < j < |s| ==> s[i] <= s[j]
  }

  function InsertAscending(x: Day, s: seq<Day>): (r: seq<Day>)
    requires Ascending(s)
    ensures Ascending(r) && multiset(r) == multiset(s) + multiset{x}
    ensures |r| == |s| + 1
    decreases |s|
  {
    if |s| == 0 then [x]
    else if x <= s[0] then [x] + s
    else
      var rest := InsertAscending(x, s[1..]);
      assert s == [s[0]] + s[1..];
      assert forall k :: 0 <= k < |rest| ==> s[0] <= rest[k] by {
        forall k | 0 <= k < |rest| ensures s[0] <= rest[k] {
          assert rest[k] in multiset(rest);
          assert rest[k] == x || rest[k] in multiset(s[1..]);
          if rest[k] != x {
            var j :| 0 <= j < |s[1..]| && s[1..][j] == rest[k];
          }
        }
      }
      [s[0]] + rest
  }

  /** The `orderBy('date', 'asc')` of the query: the days in ascending order. */
  function SortAscending(s: seq<Day>): (r: seq<Day>)
    ensures Ascending(r) && multiset(r) == multiset(s)
    ensures |r| == |s|
    decreases |s|
  {
    if |s| == 0 then []
    else
      assert s == [s[0]] + s[1..];
      InsertAscending(s[0], SortAscending(s[1..]))
  }

  function Dates(rows: seq<Meal>): (r: seq<Day>)
    ensures |r| == |rows| && forall k :: 0 <= k < |rows| ==> r[k] == rows[k].date
  {
    seq(|rows|, k requires 0 <= k < |rows| => rows[k].date)
  }

  /** `where({ user_id, is_diet })`. */
  function DietFilter(owner: UserId, isDiet: bool): Filter {
    Filter(None, Some(owner), Some(isDiet))
  }

  /** The dates of the owner's diet meals, in ascending order. */
  function DietDays(meals: seq<Meal>, owner: UserId): (r: seq<Day>)
    ensures Ascending(r)
    ensures multiset(r) == multiset(Dates(Where(meals, DietFilter(owner, true))))
  {
    SortAscending(Dates(Where(meals, DietFilter(owner, true))))
  }

  /** The aggregation behind the metrics, for one owner: how many meals, how many
      of them diet and how many not, and the streak of the diet days in date order. */
  function Summarize(meals: seq<Meal>, owner: UserId): (s: Summary)
    ensures s.total == |Where(meals, OwnerFilter(owner))|
    ensures s.diet == |Where(meals, DietFilter(owner, true))|
    ensures s.total == s.diet + s.notDiet
    ensures 1 <= s.bestSequence <= (if s.diet == 0 then 1 else s.diet)
  {
    DietCountsSplitTotal(meals, owner);
    Summary(|Where(meals, OwnerFilter(owner))|,
            |Where(meals, DietFilter(owner, true))|,
            |Where(meals, DietFilter(owner, false))|,
            BestSequence(DietDays(meals, owner)))
  }

  /** GET /users/metrics. The caller must be identified AND still be a user; the
      summary is then over the caller's own meals. */
  function Metrics(users: seq<User>, meals: seq<Meal>, cookie: Option<Token>,
                   decode: Token -> Option<UserId>): (r: Reply<Summary>)
    ensures r.status == Unauthorized <==>
              Authenticate(cookie, decode).None?
              || forall u :: u in users ==> u.id != Authenticate(cookie, decode).value
    ensures r.status == Unauthorized ==> r == UnauthorizedReply()
    ensures r.status == Ok ==>
              r == Reply(Ok, "", Some(Summarize(meals, Authenticate(cookie, decode).value)))
    ensures r.status in {Ok, Unauthorized}
  {
    var caller := Authenticate(cookie, decode);
    if caller.None? then UnauthorizedReply()
    else
      var found := First(users, IdIs(caller.value));
      assert found.None? <==> forall u :: u in users ==> u.id != caller.value by {
        if found.Some? {
          var k :| 0 <= k < |users| && users[k] == found.value && IdIs(caller.value)(users[k]);
        } else {
          forall u | u in users ensures u.id != caller.value {
            var k :| 0 <= k < |users| && users[k] == u;
            assert !IdIs(caller.value)(users[k]);
          }
        }
      }
      match found
      case None => UnauthorizedReply()
      case Some(user) =>
        assert user.id == caller.value by {
          var k :| 0 <= k < |users| && users[k] == user && IdIs(caller.value)(users[k]);
        }
        Reply(Ok, "", Some(Summarize(meals, user.id)))
  }

  /** The summary depends on the owner's meals alone: two tables that hold the same
      rows for the owner give the same summary, whatever rows other owners have. */
  lemma SummarySeesOnlyOwnersMeals(meals1: seq<Meal>, meals2: seq<Meal>, owner: UserId)
    requires Where(meals1, OwnerFilter(owner)) == Where(meals2, OwnerFilter(owner))
    ensures Summarize(meals1, owner) == Summarize(meals2, owner)
  {
    OtherOwnersRowsAreInvisible(meals1, meals2, DietFilter(owner, true));
    OtherOwnersRowsAreInvisible(meals1, meals2, DietFilter(owner, false));
  }

  /** An owner without diet meals gets a best sequence of one. */
  lemma NoDietMealsGiveBestSequenceOne(meals: seq<Meal>, owner: UserId)
    requires forall m :: m in meals && m.owner == owner ==> !m.isDiet
    ensures Summarize(meals, owner).diet == 0
    ensures Summarize(meals, owner).bestSequence == 1
  {
    assert Where(meals, DietFilter(owner, true)) == [];
  }

  /** A meal stored without `isDiet` counts as a meal that is not diet: after it is
      added, the owner's total and non-diet counts grow by one and the diet count
      and best sequence stay. */
  lemma MealWithoutIsDietCountsAsNotDiet(meals: seq<Meal>, m: Meal)
    requires m == NewMeal(m.id, m.owner, m.name, m.description, m.date, None)
    ensures Summarize(meals + [m], m.owner)
         == Summarize(meals, m.owner).(total := Summarize(meals, m.owner).total + 1,
                                       notDiet := Summarize(meals, m.owner).notDiet + 1)
  {
    WhereAppend(meals, m, OwnerFilter(m.owner));
    WhereAppend(meals, m, DietFilter(m.owner, true));
    WhereAppend(meals, m, DietFilter(m.owner, false));
    assert Where(meals + [m], DietFilter(m.owner, true)) == Where(meals, DietFilter(m.owner, true));
  }

  /** The meals of one user, "john", in the order they were added: a non-diet meal
      on the 30th and diet meals on the 29th, 30th and 28th (days numbered by day
      of month). */
  const M1 := Meal("m1", "john", "Hambuguer", Some("X-Burguer"), 30, false)
  const M2 := Meal("m2", "john", "Sanduiche", None, 29, true)
  const M3 := Meal("m3", "john", "Salada", None, 30, true)
  const M4 := Meal("m4", "john", "Salada de Frutas", None, 28, true)

  lemma ScenarioDietRows(f: Filter)
    requires f == DietFilter("john", true)
    ensures Where([M1, M2, M3, M4], f) == [M2, M3, M4]
  {
    assert [M1, M2, M3, M4][1..] == [M2, M3, M4];
    assert [M2, M3, M4][1..] == [M3, M4];
    assert [M3, M4][1..] == [M4];
    assert [M4][1..] == [];
    assert Where([M4], f) == [M4];
    assert Where([M3, M4], f) == [M3, M4];
    assert Where([M2, M3, M4], f) == [M2, M3, M4];
  }

  lemma ScenarioNotDietRows(g: Filter)
    requires g == DietFilter("john", false)
    ensures Where([M1, M2, M3, M4], g) == [M1]
  {
    assert [M1, M2, M3, M4][1..] == [M2, M3, M4];
    assert [M2, M3, M4][1..] == [M3, M4];
    assert [M3, M4][1..] == [M4];
    assert [M4][1..] == [];
    assert Where([M4], g) == [];
    assert Where([M3, M4], g) == [];
    assert Where([M2, M3, M4], g) == [];
  }

  lemma ScenarioOwnerRows(h: Filter)
    requires h == OwnerFilter("john")
    ensures Where([M1, M2, M3, M4], h) == [M1, M2, M3, M4]
  {
    assert [M1, M2, M3, M4][1..] == [M2, M3, M4];
    assert [M2, M3, M4][1..] == [M3, M4];
    assert [M3, M4][1..] == [M4];
    assert [M4][1..] == [];
    assert Where([M4], h) == [M4];
    assert Where([M3, M4], h) == [M3, M4];
    assert Where([M2, M3, M4], h) == [M2, M3, M4];
  }

  lemma ScenarioInsertions()
    ensures InsertAscending(30, [28]) == [28, 30]
    ensures InsertAscending(29, [28, 30]) == [28, 29, 30]
  {
    assert [28][1..] == [];
    assert [28, 30][1..] == [30];
    assert InsertAscending(29, [30]) == [29, 30];
  }

  lemma ScenarioSort()
    ensures SortAscending([29, 30, 28]) == [28, 29, 30]
  {
    ScenarioInsertions();
    assert [29, 30, 28][1..] == [30, 28] && [30, 28][1..] == [28] && [28][1..] == [];
    assert SortAscending([28]) == [28];
    assert SortAscending([30, 28]) == [28, 30];
  }

  lemma ScenarioDays()
    ensures DietDays([M1, M2, M3, M4], "john") == [28, 29, 30]
  {
    ScenarioDietRows(DietFilter("john", true));
    assert Dates([M2, M3, M4]) == [29, 30, 28];
    ScenarioSort();
  }

  /** The summary of those meals: four meals, three diet, one not, and a best
      sequence of three (the 28th, 29th and 30th). */
  lemma ScenarioSummary()
    ensures Summarize([M1, M2, M3, M4], "john") == Summary(4, 3, 1, 3)
  {
    ScenarioDietRows(DietFilter("john", true));
    ScenarioNotDietRows(DietFilter("john", false));
    ScenarioOwnerRows(OwnerFilter("john"));
    ScenarioDays();
    UnsortedInputIsNotSorted(28);
  }

  /** The same figures through the metrics route, for a request whose token
      decodes to that user. */
  lemma MetricsScenario(cookie: Token, decode: Token -> Option<UserId>, password: Digest)
    requires cookie != "" && decode(cookie) == Some("john")
    ensures Metrics([User("john", "John Doe", "john@doe.com", password)], [M1, M2, M3, M4],
                    Some(cookie), decode)
         == Reply(Ok, "", Some(Summary(4, 3, 1, 3)))
  {
    var users := [User("john", "John Doe", "john@doe.com", password)];
    assert users[0] in users;
    ScenarioSummary();
  }
}
