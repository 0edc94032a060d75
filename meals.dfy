/**
 * The meal routes: create, list, read, update and delete meals, every one of them
 * gated on the identity decoded from the request's token and scoped to the rows
 * whose owner is that identity.
 */
module Meals {
  import opened Common
  import opened Schema
  import opened Auth
  import Streak

  /** The body of a create or update request. */
  datatype MealBody = MealBody(
    name: Field<string>,
    description: Field<string>,
    date: Field<Streak.Day>,
    isDiet: Field<bool>)

  const MaxTextLength := 255
  const MealsNotFoundMessage := "meals not found"
  const MealNotFoundMessage := "meal not found"

  predicate ValidName(name: string) {
    1 <= |name| <= MaxTextLength
  }

  predicate ValidDescription(description: string) {
    |description| <= MaxTextLength
  }

  /** The create schema: a name of 1 to 255 characters, an optional description of
      at most 255, a date (a missing date does not coerce), an optional boolean. */
  predicate ValidCreateBody(b: MealBody) {
    && b.name.Given? && ValidName(b.name.value)
    && (b.description.Absent? || (b.description.Given? && ValidDescription(b.description.value)))
    && b.date.Given?
    && !b.isDiet.Malformed?
  }

  /** The update schema: the same constraints, every field optional. */
  predicate ValidUpdateBody(b: MealBody) {
    && (b.name.Absent? || (b.name.Given? && ValidName(b.name.value)))
    && (b.description.Absent? || (b.description.Given? && ValidDescription(b.description.value)))
    && !b.date.Malformed?
    && !b.isDiet.Malformed?
  }

  function OptionOf<T>(f: Field<T>): Option<T> {
    if f.Given? then Some(f.value) else None
  }

  /** The row a valid create body inserts for `owner`: the owner comes from the
      token, never from the body. */
  function InsertedMeal(id: MealId, owner: UserId, b: MealBody): (m: Meal)
    requires ValidCreateBody(b)
    ensures m.id == id && m.owner == owner
    ensures m.name == b.name.value && m.date == b.date.value
    ensures m.description == OptionOf(b.description)
    ensures m.isDiet <==> b.isDiet == Given(true)
  {
    NewMeal(id, owner, b.name.value, OptionOf(b.description), b.date.value, OptionOf(b.isDiet))
  }

  /** One row after an update: the supplied fields take their new values, every
      other column keeps its old one. */
  function Patch(m: Meal, b: MealBody): (r: Meal)
    ensures r.id == m.id && r.owner == m.owner
    ensures r.name == (if b.name.Given? then b.name.value else m.name)
    ensures r.description == (if b.description.Given? then Some(b.description.value) else m.description)
    ensures r.date == (if b.date.Given? then b.date.value else m.date)
    ensures r.isDiet == (if b.isDiet.Given? then b.isDiet.value else m.isDiet)
  {
    m.(name := if b.name.Given? then b.name.value else m.name,
       description := if b.description.Given? then Some(b.description.value) else m.description,
       date := if b.date.Given? then b.date.value else m.date,
       isDiet := if b.isDiet.Given? then b.isDiet.value else m.isDiet)
  }

  /** An update: every row matching `f` is patched in place, the others stay. */
  function UpdateWhere(rows: seq<Meal>, f: Filter, b: MealBody): (r: seq<Meal>)
    ensures |r| == |rows|
    ensures forall k :: 0 <= k < |rows| ==> r[k].id == rows[k].id && r[k].owner == rows[k].owner
    ensures forall k :: 0 <= k < |rows| && !Matches(rows[k], f) ==> r[k] == rows[k]
    ensures forall k :: 0 <= k < |rows| && Matches(rows[k], f) ==> r[k] == Patch(rows[k], b)
  {
    seq(|rows|, k requires 0 <= k < |rows| => if Matches(rows[k], f) then Patch(rows[k], b) else rows[k])
  }

  /** An update never changes a row's id or owner, so it keeps the foreign key and
      the primary key as they were. */
  lemma UpdateKeepsKeys(rows: seq<Meal>, f: Filter, b: MealBody, users: seq<User>)
    ensures OwnersExist(rows, users) ==> OwnersExist(UpdateWhere(rows, f, b), users)
    ensures UniqueMealIds(rows) ==> UniqueMealIds(UpdateWhere(rows, f, b))
  {
    var r := UpdateWhere(rows, f, b);
    if OwnersExist(rows, users) {
      forall m | m in r ensures UserIdInUse(users, m.owner) {
        var k :| 0 <= k < |r| && r[k] == m;
        assert rows[k] in rows;
      }
    }
  }

  /** `where({ id, user_id })`. */
  function RowFilter(id: MealId, owner: UserId): Filter {
    Filter(Some(id), Some(owner), None)
  }

  /** The meals table. */
  class MealsTable {
    var rows: seq<Meal>

    ghost predicate Valid()
      reads this
    {
      UniqueMealIds(rows)
    }

    /** The table as the migration creates it. */
    constructor ()
      ensures Valid() && rows == []
    {
      rows := [];
    }

    /** POST /meals. A valid body from an identified caller inserts one row with the
        fresh id and the caller as owner; `freshId` is the random UUID the handler
        draws and `users` the users table the foreign key refers to. An id already
        in use or an owner that is not a user violates a constraint: the insert
        throws and nothing is stored. */
    method Create(cookie: Option<Token>, decode: Token -> Option<UserId>, body: MealBody,
                  freshId: MealId, users: seq<User>) returns (reply: Reply<()>)
      requires Valid()
      modifies this
      ensures Valid()
      ensures Authenticate(cookie, decode).None? ==>
                reply == UnauthorizedReply() && rows == old(rows)
      ensures Authenticate(cookie, decode).Some? && !ValidCreateBody(body) ==>
                reply == Reply(BadRequest, InvalidBodyMessage, None) && rows == old(rows)
      ensures Authenticate(cookie, decode).Some? && ValidCreateBody(body)
              && (MealIdInUse(old(rows), freshId) || !UserIdInUse(users, Authenticate(cookie, decode).value)) ==>
                reply.status == InternalError && rows == old(rows)
      ensures reply.status == Created <==>
                Authenticate(cookie, decode).Some? && ValidCreateBody(body)
                && !MealIdInUse(old(rows), freshId) && UserIdInUse(users, Authenticate(cookie, decode).value)
      ensures reply.status == Created ==>
                reply.body.None?
                && rows == old(rows) + [InsertedMeal(freshId, Authenticate(cookie, decode).value, body)]
      ensures OwnersExist(old(rows), users) ==> OwnersExist(rows, users)
    {
      var caller := Authenticate(cookie, decode);
      if caller.None? {
        return UnauthorizedReply();
      }
      if !ValidCreateBody(body) {
        return Reply(BadRequest, InvalidBodyMessage, None);
      }
      if MealIdInUse(rows, freshId) || !UserIdInUse(users, caller.value) {
        return Reply(InternalError, "", None);
      }
      var meal := InsertedMeal(freshId, caller.value, body);
      forall m | m in rows ensures m.id != freshId {
      }
      rows := rows + [meal];
      reply := Reply(Created, "", None);
    }

    /** GET /meals: all the caller's rows, or 404 when the caller has none. */
    method List(cookie: Option<Token>, decode: Token -> Option<UserId>) returns (reply: Reply<seq<Meal>>)
      ensures Authenticate(cookie, decode).None? ==> reply == UnauthorizedReply()
      ensures reply.status == Unauthorized <==> Authenticate(cookie, decode).None?
      ensures reply.status == NotFound <==>
                Authenticate(cookie, decode).Some?
                && forall m :: m in rows ==> m.owner != Authenticate(cookie, decode).value
      ensures reply.status == NotFound ==> reply == Reply(NotFound, MealsNotFoundMessage, None)
      ensures reply.status == Ok ==>
                Authenticate(cookie, decode).Some? && reply.message == "" && reply.body.Some?
                && reply.body.value == Where(rows, OwnerFilter(Authenticate(cookie, decode).value))
                && forall m :: m in reply.body.value <==>
                                 m in rows && m.owner == Authenticate(cookie, decode).value
      ensures reply.status in {Ok, NotFound, Unauthorized}
    {
      var caller := Authenticate(cookie, decode);
      if caller.None? {
        return UnauthorizedReply();
      }
      var meals := Where(rows, OwnerFilter(caller.value));
      if |meals| == 0 {
        return Reply(NotFound, MealsNotFoundMessage, None);
      }
      assert meals[0] in meals;
      reply := Reply(Ok, "", Some(meals));
    }

    /** GET /meals/:id: the row with that id if the caller owns it; a row of another
        owner answers exactly as a missing row does. */
    method Get(cookie: Option<Token>, decode: Token -> Option<UserId>, id: MealId) returns (reply: Reply<Meal>)
      ensures Authenticate(cookie, decode).None? ==> reply == UnauthorizedReply()
      ensures reply.status == Unauthorized <==> Authenticate(cookie, decode).None?
      ensures reply.status == NotFound <==>
                Authenticate(cookie, decode).Some?
                && forall m :: m in rows ==> !Matches(m, RowFilter(id, Authenticate(cookie, decode).value))
      ensures reply.status == NotFound ==> reply == Reply(NotFound, MealNotFoundMessage, None)
      ensures reply.status == Ok ==>
                Authenticate(cookie, decode).Some? && reply.message == "" && reply.body.Some?
                && reply.body.value in rows
                && reply.body.value.id == id && reply.body.value.owner == Authenticate(cookie, decode).value
      ensures reply.status in {Ok, NotFound, Unauthorized}
    {
      var caller := Authenticate(cookie, decode);
      if caller.None? {
        return UnauthorizedReply();
      }
      var meal := Where(rows, RowFilter(id, caller.value));
      if |meal| == 0 {
        return Reply(NotFound, MealNotFoundMessage, None);
      }
      assert meal[0] in meal;
      reply := Reply(Ok, "", Some(meal[0]));
    }

    /** PUT /meals/:id: patches the row with that id if the caller owns it and
        answers 204 whether a row matched or not. */
    method Update(cookie: Option<Token>, decode: Token -> Option<UserId>, id: MealId, body: MealBody)
      returns (reply: Reply<()>)
      requires Valid()
      modifies this
      ensures Valid()
      ensures Authenticate(cookie, decode).None? ==>
                reply == UnauthorizedReply() && rows == old(rows)
      ensures Authenticate(cookie, decode).Some? && !ValidUpdateBody(body) ==>
                reply == Reply(BadRequest, InvalidBodyMessage, None) && rows == old(rows)
      ensures Authenticate(cookie, decode).Some? && ValidUpdateBody(body) ==>
                reply == Reply(NoContent, "", None)
                && rows == UpdateWhere(old(rows), RowFilter(id, Authenticate(cookie, decode).value), body)
      ensures |rows| == |old(rows)|
      ensures forall k :: 0 <= k < |rows| ==> rows[k].id == old(rows)[k].id && rows[k].owner == old(rows)[k].owner
      ensures forall k :: 0 <= k < |rows| && (Authenticate(cookie, decode).None? || old(rows)[k].id != id
                                             || old(rows)[k].owner != Authenticate(cookie, decode).value) ==>
                rows[k] == old(rows)[k]
    {
      var caller := Authenticate(cookie, decode);
      if caller.None? {
        return UnauthorizedReply();
      }
      if !ValidUpdateBody(body) {
        return Reply(BadRequest, InvalidBodyMessage, None);
      }
      rows := UpdateWhere(rows, RowFilter(id, caller.value), body);
      reply := Reply(NoContent, "", None);
    }

    /** DELETE /meals/:id: removes the row with that id if the caller owns it and
        answers 204 whether a row matched or not. */
    method Delete(cookie: Option<Token>, decode: Token -> Option<UserId>, id: MealId) returns (reply: Reply<()>)
      requires Valid()
      modifies this
      ensures Valid()
      ensures Authenticate(cookie, decode).None? ==>
                reply == UnauthorizedReply() && rows == old(rows)
      ensures Authenticate(cookie, decode).Some? ==>
                reply == Reply(NoContent, "", None)
                && rows == DeleteWhere(old(rows), RowFilter(id, Authenticate(cookie, decode).value))
                && forall m :: m in rows ==> !Matches(m, RowFilter(id, Authenticate(cookie, decode).value))
      ensures forall m :: m in old(rows) && (Authenticate(cookie, decode).None? || m.id != id
                                             || m.owner != Authenticate(cookie, decode).value) ==>
                m in rows
      ensures forall m :: m in rows ==> m in old(rows)
    {
      var caller := Authenticate(cookie, decode);
      if caller.None? {
        return UnauthorizedReply();
      }
      DeleteWhereKeepsIdsUnique(rows, RowFilter(id, caller.value));
      rows := DeleteWhere(rows, RowFilter(id, caller.value));
      reply := Reply(NoContent, "", None);
    }
  }

  /** Creating a meal and then reading it by its id gives back the row that was
      inserted. */
  method CreatedMealCanBeRead(table: MealsTable, cookie: Option<Token>, decode: Token -> Option<UserId>,
                              body: MealBody, freshId: MealId, users: seq<User>)
    returns (created: Reply<()>, read: Reply<Meal>)
    requires table.Valid()
    requires Authenticate(cookie, decode).Some? && ValidCreateBody(body)
    requires !MealIdInUse(table.rows, freshId) && UserIdInUse(users, Authenticate(cookie, decode).value)
    modifies table
    ensures created.status == Created
    ensures read == Reply(Ok, "", Some(InsertedMeal(freshId, Authenticate(cookie, decode).value, body)))
  {
    created := table.Create(cookie, decode, body, freshId, users);
    var meal := InsertedMeal(freshId, Authenticate(cookie, decode).value, body);
    var last := |table.rows| - 1;
    assert table.rows[last] == meal && meal in table.rows;
    assert Matches(meal, RowFilter(freshId, Authenticate(cookie, decode).value));
    read := table.Get(cookie, decode, freshId);
    assert read.status == Ok;
    var k :| 0 <= k < |table.rows| && table.rows[k] == read.body.value;
    assert table.rows[k].id == table.rows[last].id;
    assert k == last;
  }

  /** Updating a meal the caller owns and then reading it shows the supplied fields
      with their new values and the others as they were. */
  method UpdatedMealShowsNewFields(table: MealsTable, cookie: Option<Token>, decode: Token -> Option<UserId>,
                                   id: MealId, body: MealBody, k: nat)
    returns (updated: Reply<()>, read: Reply<Meal>)
    requires table.Valid() && ValidUpdateBody(body)
    requires Authenticate(cookie, decode).Some?
    requires k < |table.rows| && Matches(table.rows[k], RowFilter(id, Authenticate(cookie, decode).value))
    modifies table
    ensures updated == Reply(NoContent, "", None)
    ensures read == Reply(Ok, "", Some(Patch(old(table.rows[k]), body)))
  {
    updated := table.Update(cookie, decode, id, body);
    var patched := table.rows[k];
    assert patched == Patch(old(table.rows[k]), body);
    assert patched in table.rows && Matches(patched, RowFilter(id, Authenticate(cookie, decode).value));
    read := table.Get(cookie, decode, id);
    assert read.status == Ok;
    var j :| 0 <= j < |table.rows| && table.rows[j] == read.body.value;
    assert table.rows[j].id == table.rows[k].id;
    assert j == k;
  }

  /** Deleting a meal and then reading it by its id gives 404, whether or not the
      id named a row of the caller's. */
  method DeletedMealIsNotFound(table: MealsTable, cookie: Option<Token>, decode: Token -> Option<UserId>,
                               id: MealId)
    returns (deleted: Reply<()>, read: Reply<Meal>)
    requires table.Valid()
    requires Authenticate(cookie, decode).Some?
    modifies table
    ensures deleted == Reply(NoContent, "", None)
    ensures read == Reply(NotFound, MealNotFoundMessage, None)
  {
    deleted := table.Delete(cookie, decode, id);
    read := table.Get(cookie, decode, id);
  }
}
