/**
 * The user store and the user service. The ORM table is an in-memory list of
 * rows whose id, username and email are unique, as the database declares them;
 * a lookup on a unique key finds the one matching row or fails. Deleting only
 * stamps `deletedAt`, and no lookup filters on it.
 */
module UserService {
  import opened Common
  import opened UsersEntity

  /** The body accepted by the register schema. */
  datatype RegisterData = RegisterData(username: string, firstName: string, lastName: string, email: string, password: string)

  /** The body accepted by the update schema: each field optional. */
  datatype UpdateUserData = UpdateUserData(username: Option<string>, firstName: Option<string>, lastName: Option<string>)

  datatype Key = Id | Username | Email

  function KeyOf(u: User, key: Key): string {
    match key
    case Id => u.id
    case Username => u.username
    case Email => u.email
  }

  const UserAlreadyExists: string := "User already exists"
  const NotFound: string := "No User found"
  const UniqueViolation: string := "Unique constraint failed"
  const RecordNotFound: string := "Record to update not found."

  /** No two rows share an id, a username or an email. */
  ghost predicate UniqueKeys(rows: seq<User>) {
    forall i, j :: 0 <= i < j < |rows| ==>
      rows[i].id != rows[j].id && rows[i].username != rows[j].username && rows[i].email != rows[j].email
  }

  /** The index of the first row whose `key` is `value`. */
  function IndexWhere(rows: seq<User>, key: Key, value: string): (r: Option<nat>)
    ensures r.Some? ==> r.value < |rows| && KeyOf(rows[r.value], key) == value
    ensures r.Some? ==> forall j :: 0 <= j < r.value ==> KeyOf(rows[j], key) != value
    ensures r.None? <==> forall j :: 0 <= j < |rows| ==> KeyOf(rows[j], key) != value
  {
    if |rows| == 0 then None
    else if KeyOf(rows[0], key) == value then Some(0)
    else match IndexWhere(rows[1..], key, value)
      case None => None
      case Some(i) => Some(i + 1)
  }

  /** With unique keys, the row found is the only one with that key. */
  lemma IndexWhereUnique(rows: seq<User>, key: Key, value: string, j: nat)
    requires UniqueKeys(rows) && j < |rows| && KeyOf(rows[j], key) == value
    ensures IndexWhere(rows, key, value) == Some(j)
  {
  }

  function Updated(u: User, data: UpdateUserData): User {
    u.(username := if data.username.Some? then data.username.value else u.username,
       firstName := if data.firstName.Some? then data.firstName.value else u.firstName,
       lastName := if data.lastName.Some? then data.lastName.value else u.lastName)
  }

  /** The ORM repository over the `user` table. */
  class UserRepository {
    var rows: seq<User>

    ghost predicate Valid()
      reads this
    {
      UniqueKeys(rows)
    }

    constructor ()
      ensures Valid() && rows == []
    {
      rows := [];
    }

    /** `getUserById`, `getUserByUsername`, `getUserByEmail`: the row with that key; `None` where the ORM throws. */
    function Find(key: Key, value: string): (r: Option<User>)
      reads this
      ensures r.Some? ==> r.value in rows && KeyOf(r.value, key) == value
      ensures r.None? <==> forall u :: u in rows ==> KeyOf(u, key) != value
    {
      match IndexWhere(rows, key, value)
      case None => None
      case Some(i) => Some(rows[i])
    }

    /** `createUser`: appends the row, unless the database refuses a repeated id, username or email. */
    method Create(data: RegisterData, id: string, createdAt: string) returns (r: Result<User>)
      requires Valid()
      modifies this
      ensures Valid()
      ensures var clash := exists u :: u in old(rows) && (u.id == id || u.username == data.username || u.email == data.email);
        && (clash ==> r == Err(UniqueViolation) && rows == old(rows))
        && (!clash ==> r == Ok(User(id, data.username, data.firstName, data.lastName, data.email, data.password, createdAt, None, None))
                       && rows == old(rows) + [r.value])
    {
      if Find(Id, id).Some? || Find(Username, data.username).Some? || Find(Email, data.email).Some? {
        return Err(UniqueViolation);
      }
      var u := User(id, data.username, data.firstName, data.lastName, data.email, data.password, createdAt, None, None);
      rows := rows + [u];
      return Ok(u);
    }

    /** `updateUser`: overwrites the given fields of the row with that id; a missing row or a taken username raises. */
    method Update(id: string, data: UpdateUserData) returns (r: Result<User>)
      requires Valid()
      modifies this
      ensures Valid()
      ensures IndexWhere(old(rows), Id, id).None? ==> r == Err(RecordNotFound) && rows == old(rows)
      ensures IndexWhere(old(rows), Id, id).Some? ==>
        var i := IndexWhere(old(rows), Id, id).value;
        var clash := data.username.Some? && exists u :: u in old(rows) && u.username == data.username.value && u.id != id;
        && (clash ==> r == Err(UniqueViolation) && rows == old(rows))
        && (!clash ==> r == Ok(Updated(old(rows)[i], data)) && rows == old(rows)[i := r.value])
    {
      var idx := IndexWhere(rows, Id, id);
      if idx.None? {
        return Err(RecordNotFound);
      }
      var i := idx.value;
      if data.username.Some? {
        var holder := Find(Username, data.username.value);
        if holder.Some? && holder.value.id != id {
          return Err(UniqueViolation);
        }
        if holder.None? {
          assert forall u :: u in rows ==> u.username != data.username.value;
        }
      }
      var u := Updated(rows[i], data);
      rows := rows[i := u];
      r := Ok(u);
      forall a, b | 0 <= a < b < |rows|
        ensures rows[a].id != rows[b].id && rows[a].username != rows[b].username && rows[a].email != rows[b].email
      {
        if a != i && b != i {
          assert rows[a] == old(rows)[a] && rows[b] == old(rows)[b];
        } else if a == i {
          assert rows[b] == old(rows)[b] && old(rows)[b] in old(rows);
        } else {
          assert rows[a] == old(rows)[a] && old(rows)[a] in old(rows);
        }
      }
    }

    /** `deleteUser`: a soft delete that stamps `deletedAt` on the row with that id and keeps the row. */
    method Delete(id: string, now: string) returns (r: Result<User>)
      requires Valid()
      modifies this
      ensures Valid()
      ensures IndexWhere(old(rows), Id, id).None? ==> r == Err(RecordNotFound) && rows == old(rows)
      ensures IndexWhere(old(rows), Id, id).Some? ==>
        var i := IndexWhere(old(rows), Id, id).value;
        r == Ok(old(rows)[i].(deletedAt := Some(now))) && rows == old(rows)[i := r.value]
    {
      var idx := IndexWhere(rows, Id, id);
      if idx.None? {
        return Err(RecordNotFound);
      }
      var u := rows[idx.value].(deletedAt := Some(now));
      rows := rows[idx.value := u];
      assert forall a :: 0 <= a < |rows| ==> KeyOf(rows[a], Id) == KeyOf(old(rows)[a], Id);
      return Ok(u);
    }
  }

  /** A deleted user is still found by id, with its `deletedAt` stamp. */
  lemma DeletedUserStillFound(rows: seq<User>, i: nat, now: string)
    requires UniqueKeys(rows) && i < |rows|
    ensures var after := rows[i := rows[i].(deletedAt := Some(now))];
      IndexWhere(after, Id, rows[i].id) == Some(i) && after[i].deletedAt == Some(now)
  {
    var after := rows[i := rows[i].(deletedAt := Some(now))];
    assert UniqueKeys(after) by {
      assert forall a :: 0 <= a < |after| ==> after[a].id == rows[a].id && after[a].username == rows[a].username && after[a].email == rows[a].email;
    }
    IndexWhereUnique(after, Id, rows[i].id, i);
  }

  /** The user service, over one repository. */
  class UserService {
    const repo: UserRepository

    constructor (repo: UserRepository)
      ensures this.repo == repo
    {
      this.repo := repo;
    }

    /**
     * `createUser`: a username or an email already held by any stored user,
     * deleted or not, raises `'User already exists'`; a lookup that finds
     * nothing lets creation go on; otherwise exactly one row is added.
     */
    method CreateUser(data: RegisterData, id: string, createdAt: string) returns (r: Result<User>)
      requires repo.Valid()
      modifies repo
      ensures repo.Valid()
      ensures var taken := exists u :: u in old(repo.rows) && (u.username == data.username || u.email == data.email);
        && (taken ==> r == Err(UserAlreadyExists) && repo.rows == old(repo.rows))
        && (!taken && (exists u :: u in old(repo.rows) && u.id == id) ==> r == Err(UniqueViolation) && repo.rows == old(repo.rows))
        && (!taken && (forall u :: u in old(repo.rows) ==> u.id != id) ==>
              r == Ok(User(id, data.username, data.firstName, data.lastName, data.email, data.password, createdAt, None, None))
              && repo.rows == old(repo.rows) + [r.value])
    {
      var byUsername := repo.Find(Username, data.username);
      if byUsername.Some? {
        return Err(UserAlreadyExists);
      }
      var byEmail := repo.Find(Email, data.email);
      if byEmail.Some? {
        return Err(UserAlreadyExists);
      }
      r := repo.Create(data, id, createdAt);
    }

    /**
     * `updateUser`: `'User already exists'` exactly when a non-empty username
     * is given and another user holds it; otherwise the repository update runs.
     */
    method UpdateUser(id: string, data: UpdateUserData) returns (r: Result<User>)
      requires repo.Valid()
      modifies repo
      ensures repo.Valid()
      ensures var taken := data.username.Some? && data.username.value != ""
                 && exists u :: u in old(repo.rows) && u.username == data.username.value && u.id != id;
        && (taken <==> r == Err(UserAlreadyExists))
        && (taken ==> repo.rows == old(repo.rows))
      ensures var taken := data.username.Some? && data.username.value != ""
                 && exists u :: u in old(repo.rows) && u.username == data.username.value && u.id != id;
        !taken ==>
          && (IndexWhere(old(repo.rows), Id, id).None? ==> r == Err(RecordNotFound) && repo.rows == old(repo.rows))
          && (IndexWhere(old(repo.rows), Id, id).Some? ==>
                var i := IndexWhere(old(repo.rows), Id, id).value;
                var clash := data.username == Some("") && exists u :: u in old(repo.rows) && u.username == "" && u.id != id;
                && (clash ==> r == Err(UniqueViolation) && repo.rows == old(repo.rows))
                && (!clash ==> r == Ok(Updated(old(repo.rows)[i], data)) && repo.rows == old(repo.rows)[i := r.value]))
    {
      if data.username.Some? && data.username.value != "" {
        var holder := repo.Find(Username, data.username.value);
        if holder.Some? && holder.value.id != id {
          return Err(UserAlreadyExists);
        }
        if holder.Some? {
          assert forall u :: u in repo.rows && u.username == data.username.value ==> u == holder.value by {
            forall u | u in repo.rows && u.username == data.username.value ensures u == holder.value {
              var a :| 0 <= a < |repo.rows| && repo.rows[a] == u;
              IndexWhereUnique(repo.rows, Username, data.username.value, a);
            }
          }
        }
      }
      r := repo.Update(id, data);
    }

    /** `deleteUser`: delegates to the repository's soft delete. */
    method DeleteUser(id: string, now: string) returns (r: Result<User>)
      requires repo.Valid()
      modifies repo
      ensures repo.Valid()
      ensures IndexWhere(old(repo.rows), Id, id).None? ==> r == Err(RecordNotFound) && repo.rows == old(repo.rows)
      ensures IndexWhere(old(repo.rows), Id, id).Some? ==>
        var i := IndexWhere(old(repo.rows), Id, id).value;
        r == Ok(old(repo.rows)[i].(deletedAt := Some(now))) && repo.rows == old(repo.rows)[i := r.value]
    {
      r := repo.Delete(id, now);
    }
  }
}
