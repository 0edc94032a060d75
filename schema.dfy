/**
 * The meals table as its migration creates it, the users table it references, and
 * the row filters (`where({...})` objects) every meal query is built from.
 */
module Schema {
  import opened Common
  import Streak

  type MealId = string
  type UserId = string
  type Digest = string

  /** A row of `meals`: `id` is the primary key, `owner` the required `user_id`,
      `name` and `date` are required, `description` may be null, `isDiet` is a
      boolean column that defaults to false. The creation and update timestamps
      are not modelled. */
  datatype Meal = Meal(
    id: MealId,
    owner: UserId,
    name: string,
    description: Option<string>,
    date: Streak.Day,
    isDiet: bool)

  /** A row of `users`; `password` holds the password's hash, never the password. */
  datatype User = User(id: UserId, name: string, email: string, password: Digest)

  /** The value `is_diet` takes when an insert does not supply one. */
  const IsDietDefault := false

  /** The row an insert of the given column values stores: an `isDiet` the insert
      leaves out takes the column default. */
  function NewMeal(id: MealId, owner: UserId, name: string, description: Option<string>,
                   date: Streak.Day, isDiet: Option<bool>): (m: Meal)
    ensures m.id == id && m.owner == owner && m.name == name
    ensures m.description == description && m.date == date
    ensures isDiet.None? ==> !m.isDiet
    ensures isDiet.Some? ==> m.isDiet == isDiet.value
  {
    Meal(id, owner, name, description, date, if isDiet.Some? then isDiet.value else IsDietDefault)
  }

  /** No two meal rows share a primary key. */
  ghost predicate UniqueMealIds(rows: seq<Meal>) {
    forall i, j :: 0 <= i < j < |rows| ==> rows[i].id != rows[j].id
  }

  /** No two user rows share a primary key. */
  ghost predicate UniqueUserIds(rows: seq<User>) {
    forall i, j :: 0 <= i < j < |rows| ==> rows[i].id != rows[j].id
  }

  predicate MealIdInUse(rows: seq<Meal>, id: MealId) {
    exists m :: m in rows && m.id == id
  }

  predicate UserIdInUse(rows: seq<User>, id: UserId) {
    exists u :: u in rows && u.id == id
  }

  /** The foreign key: every meal's owner is the id of a user. */
  ghost predicate OwnersExist(meals: seq<Meal>, users: seq<User>) {
    forall m :: m in meals ==> UserIdInUse(users, m.owner)
  }

  /** Adding users never breaks the foreign key. */
  lemma OwnersExistAsUsersGrow(meals: seq<Meal>, users: seq<User>, u: User)
    requires OwnersExist(meals, users)
    ensures OwnersExist(meals, users + [u])
  {
    forall m | m in meals ensures UserIdInUse(users + [u], m.owner) {
      var v :| v in users && v.id == m.owner;
      assert v in users + [u];
    }
  }

  /** A `where({...})` object over the meals table: each present entry must match. */
  datatype Filter = Filter(id: Option<MealId>, owner: Option<UserId>, isDiet: Option<bool>)

  /** `where({ user_id })`. */
  function OwnerFilter(owner: UserId): Filter {
    Filter(None, Some(owner), None)
  }

  predicate Matches(m: Meal, f: Filter) {
    && (f.id.None? || m.id == f.id.value)
    && (f.owner.None? || m.owner == f.owner.value)
    && (f.isDiet.None? || m.isDiet == f.isDiet.value)
  }

  /** A select: the rows that match `f`, in table order. */
  function Where(rows: seq<Meal>, f: Filter): (r: seq<Meal>)
    ensures forall m :: m in r <==> m in rows && Matches(m, f)
    ensures r == [] <==> forall m :: m in rows ==> !Matches(m, f)
    ensures |r| <= |rows|
    decreases |rows|
  {
    if |rows| == 0 then []
    else (if Matches(rows[0], f) then [rows[0]] else []) + Where(rows[1..], f)
  }

  /** A delete: the rows that remain, those that do not match `f`, in table order. */
  function DeleteWhere(rows: seq<Meal>, f: Filter): (r: seq<Meal>)
    ensures forall m :: m in r <==> m in rows && !Matches(m, f)
    ensures |r| <= |rows|
    decreases |rows|
  {
    if |rows| == 0 then []
    else (if Matches(rows[0], f) then [] else [rows[0]]) + DeleteWhere(rows[1..], f)
  }

  /** Removing rows keeps the primary key unique. */
  lemma {:induction false} DeleteWhereKeepsIdsUnique(rows: seq<Meal>, f: Filter)
    requires UniqueMealIds(rows)
    ensures UniqueMealIds(DeleteWhere(rows, f))
    decreases |rows|
  {
    if |rows| > 0 {
      var tail := rows[1..];
      assert UniqueMealIds(tail) by {
        forall i, j | 0 <= i < j < |tail| ensures tail[i].id != tail[j].id {
          assert tail[i] == rows[i + 1] && tail[j] == rows[j + 1];
        }
      }
      DeleteWhereKeepsIdsUnique(tail, f);
      var rest := DeleteWhere(tail, f);
      forall m | m in rest ensures m.id != rows[0].id {
        var k :| 0 <= k < |tail| && tail[k] == m;
        assert rows[k + 1] == m;
      }
    }
  }

  /** A query that names an owner sees only that owner's rows: it returns the same
      rows as running it on the owner's rows alone. */
  lemma {:induction false} OwnerScopedWhere(rows: seq<Meal>, f: Filter)
    requires f.owner.Some?
    ensures Where(rows, f) == Where(Where(rows, OwnerFilter(f.owner.value)), f)
    decreases |rows|
  {
    if |rows| > 0 {
      OwnerScopedWhere(rows[1..], f);
      var g := OwnerFilter(f.owner.value);
      var owned := Where(rows, g);
      if Matches(rows[0], g) {
        assert owned == [rows[0]] + Where(rows[1..], g);
        assert owned[0] == rows[0] && owned[1..] == Where(rows[1..], g);
        assert Where(owned, f) == (if Matches(rows[0], f) then [rows[0]] else []) + Where(owned[1..], f);
      } else {
        assert !Matches(rows[0], f);
        assert owned == Where(rows[1..], g);
        assert Where(rows, f) == Where(rows[1..], f);
      }
    }
  }

  /** Hence two tables that hold the same rows for an owner answer every query
      naming that owner alike, whatever other owners' rows they hold. */
  lemma OtherOwnersRowsAreInvisible(rows1: seq<Meal>, rows2: seq<Meal>, f: Filter)
    requires f.owner.Some?
    requires Where(rows1, OwnerFilter(f.owner.value)) == Where(rows2, OwnerFilter(f.owner.value))
    ensures Where(rows1, f) == Where(rows2, f)
  {
    OwnerScopedWhere(rows1, f);
    OwnerScopedWhere(rows2, f);
  }

  /** Every row of an owner either is or is not a diet meal: the owner's count splits
      into the two `is_diet` counts. */
  lemma {:induction false} DietCountsSplitTotal(rows: seq<Meal>, owner: UserId)
    ensures |Where(rows, OwnerFilter(owner))|
         == |Where(rows, Filter(None, Some(owner), Some(true)))|
          + |Where(rows, Filter(None, Some(owner), Some(false)))|
    decreases |rows|
  {
    if |rows| > 0 {
      DietCountsSplitTotal(rows[1..], owner);
    }
  }

  /** A row appended to the table is seen by a select exactly when it matches, after
      the rows that were there. */
  lemma {:induction false} WhereAppend(rows: seq<Meal>, m: Meal, f: Filter)
    ensures Where(rows + [m], f) == Where(rows, f) + (if Matches(m, f) then [m] else [])
    decreases |rows|
  {
    if |rows| == 0 {
      assert rows + [m] == [m];
      assert [m][1..] == [];
    } else {
      assert (rows + [m])[1..] == rows[1..] + [m];
      WhereAppend(rows[1..], m, f);
    }
  }
}
