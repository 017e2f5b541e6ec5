/**
 * The user store: src/infrastructure/db/user/user.repo.ts over the `user`
 * table. `id`, `email` and `username` are unique columns; `username` may be
 * null, and nulls do not conflict.
 */
module UserRepo {
  import opened Wrappers
  import opened Errors
  import opened Tables
  import opened Passwords

  /**
   * A row of the user table. The current schema's profile is `firstName`,
   * `lastName`, `username`; the legacy service writes `name` instead. Columns a
   * service never writes are left optional.
   */
  datatype User = User(
    id: string,
    firstName: Option<string>,
    lastName: Option<string>,
    name: Option<string>,
    username: Option<string>,
    email: string,
    phone: Option<string>,
    password: Option<PasswordHash>,
    avatar: string,
    isVerified: bool,
    onBanned: bool,
    role: string)

  /** The data `create` is given; the database supplies id, flags and role. */
  datatype NewUser = NewUser(
    firstName: Option<string>,
    lastName: Option<string>,
    name: Option<string>,
    username: Option<string>,
    email: string,
    phone: Option<string>,
    password: Option<PasswordHash>,
    avatar: string)

  /** `Partial<User>` restricted to the columns the services update; `None` means "not supplied". */
  datatype UserPatch = UserPatch(
    firstName: Option<string>,
    lastName: Option<string>,
    name: Option<string>,
    username: Option<string>,
    phone: Option<string>,
    password: Option<PasswordHash>,
    avatar: Option<string>,
    isVerified: Option<bool>)

  const NoChange: UserPatch := UserPatch(None, None, None, None, None, None, None, None)

  const UserNotFound: AppError := NotFoundError("User not found")
  const UserConflict: AppError := DBError("User with this email already exists")

  function Pick<T>(supplied: Option<T>, current: T): T
  {
    if supplied.Some? then supplied.value else current
  }

  function PickOptional<T>(supplied: Option<T>, current: Option<T>): Option<T>
  {
    if supplied.Some? then supplied else current
  }

  /** A row after an update: the supplied columns take the supplied values. */
  function Apply(u: User, p: UserPatch): User
  {
    User(u.id, PickOptional(p.firstName, u.firstName), PickOptional(p.lastName, u.lastName),
         PickOptional(p.name, u.name), PickOptional(p.username, u.username), u.email,
         PickOptional(p.phone, u.phone), PickOptional(p.password, u.password),
         Pick(p.avatar, u.avatar), Pick(p.isVerified, u.isVerified), u.onBanned, u.role)
  }

  /** An update never touches the identity columns, the ban flag or the role. */
  lemma ApplyKeepsIdentity(u: User, p: UserPatch)
    ensures Apply(u, p).id == u.id && Apply(u, p).email == u.email
    ensures Apply(u, p).onBanned == u.onBanned && Apply(u, p).role == u.role
  {
  }

  /** An update that supplies nothing leaves the row as it was. */
  lemma ApplyNoChange(u: User)
    ensures Apply(u, NoChange) == u
  {
  }

  /** Applying the same update twice is applying it once. */
  lemma ApplyIdempotent(u: User, p: UserPatch)
    ensures Apply(Apply(u, p), p) == Apply(u, p)
  {
  }

  /** The `OR: [{id}, {email}, {username}]` filter of `getOne`. */
  predicate MatchesKey(u: User, key: string)
  {
    u.id == key || u.email == key || u.username == Some(key)
  }

  /** Two rows that a unique column forbids side by side. */
  predicate Clash(a: User, b: User)
  {
    a.id == b.id || a.email == b.email || (a.username.Some? && a.username == b.username)
  }

  /** The unique constraints of the table. */
  ghost predicate UniqueRows(rows: seq<User>)
  {
    forall i, j :: 0 <= i < |rows| && 0 <= j < |rows| && i != j ==> !Clash(rows[i], rows[j])
  }

  /** Whether `u`, written at index `skip` (or appended, for `skip == |rows|`), breaks a unique constraint. */
  predicate ClashesWithOthers(rows: seq<User>, u: User, skip: nat)
  {
    exists j :: 0 <= j < |rows| && j != skip && Clash(rows[j], u)
  }

  /** `getOne(key)`: the first row whose id, email or username equals `key`, else NotFoundError. */
  function FindUser(rows: seq<User>, key: string): (r: Result<User, AppError>)
    ensures r.Ok? ==> MatchesKey(r.value, key)
    ensures r.Ok? ==> exists i :: 0 <= i < |rows| && rows[i] == r.value && forall j :: 0 <= j < i ==> !MatchesKey(rows[j], key)
    ensures r.Err? <==> forall j :: 0 <= j < |rows| ==> !MatchesKey(rows[j], key)
    ensures r.Err? ==> r.error == UserNotFound
  {
    match FirstIndex(rows, (u: User) => MatchesKey(u, key))
    case Some(i) => Ok(rows[i])
    case None => Err(UserNotFound)
  }

  /** The catch block of `getOne` and `findByUsername` for a fault of the query itself. */
  function LookupFailure(f: DbFailure): (e: AppError)
    ensures e.DBError?
  {
    if f.IsKnown() then DBError("Failed to retrieve user from database")
    else DBError("Unexpected error occurred while retrieving user")
  }

  /** The catch block of `create`: every failure is a DBError, a unique conflict with its own message. */
  function CreateFailure(f: DbFailure): (e: AppError)
    ensures e.DBError?
    ensures e == UserConflict <==> f == UniqueViolation
  {
    match f
    case UniqueViolation => UserConflict
    case Unexpected => DBError("Unexpected error occurred while creating user")
    case _ => DBError("Failed to create user in database")
  }

  /** The catch block of `update`: a missing row is NotFoundError, everything else a DBError. */
  function UpdateFailure(f: DbFailure): (e: AppError)
    ensures e == UserNotFound <==> f == RecordNotFound
    ensures e == UserConflict <==> f == UniqueViolation
    ensures f != RecordNotFound ==> e.DBError?
  {
    match f
    case RecordNotFound => UserNotFound
    case UniqueViolation => UserConflict
    case OtherKnown => DBError("Failed to update user in database")
    case Unexpected => DBError("Unexpected error occurred while updating user")
  }

  /** The row `create(data)` inserts: a new id, unverified, not banned, the schema's default role. */
  function NewRecord(id: string, data: NewUser, defaultRole: string): User
  {
    User(id, data.firstName, data.lastName, data.name, data.username, data.email, data.phone,
         data.password, data.avatar, false, false, defaultRole)
  }

  /** `prisma.user.create`: appends the row unless a unique column is taken. */
  function InsertRow(rows: seq<User>, u: User): (r: (seq<User>, Result<User, DbFailure>))
    ensures r.1.Err? <==> ClashesWithOthers(rows, u, |rows|)
    ensures r.1.Err? ==> r.0 == rows && r.1.error == UniqueViolation
    ensures r.1.Ok? ==> r.1.value == u && r.0 == rows + [u]
    ensures UniqueRows(rows) ==> UniqueRows(r.0)
  {
    if ClashesWithOthers(rows, u, |rows|) then (rows, Err(UniqueViolation)) else (rows + [u], Ok(u))
  }

  /** `create(data)`: appends the new row, or fails with DBError when a unique column is taken. */
  function CreateUser(rows: seq<User>, data: NewUser, newId: string, defaultRole: string): (r: (seq<User>, Result<User, AppError>))
    ensures var u := NewRecord(newId, data, defaultRole);
      && (r.1.Err? <==> ClashesWithOthers(rows, u, |rows|))
      && (r.1.Err? ==> r.0 == rows && r.1.error == UserConflict)
      && (r.1.Ok? ==> r.1.value == u && r.0 == rows + [u])
      && (UniqueRows(rows) ==> UniqueRows(r.0))
  {
    var (rows', result) := InsertRow(rows, NewRecord(newId, data, defaultRole));
    match result
    case Ok(u) => (rows', Ok(u))
    case Err(f) => (rows', Err(CreateFailure(f)))
  }

  function IndexOfId(rows: seq<User>, id: string): (r: Option<nat>)
    ensures r.Some? ==> r.value < |rows| && rows[r.value].id == id
    ensures r.None? <==> forall j :: 0 <= j < |rows| ==> rows[j].id != id
  {
    FirstIndex(rows, (u: User) => u.id == id)
  }

  /** `prisma.user.update({where: {id}})`: P2025 without such a row, P2002 on a conflict. */
  function UpdateRow(rows: seq<User>, id: string, patch: UserPatch): (r: (seq<User>, Result<User, DbFailure>))
    ensures r.1.Err? ==> r.0 == rows && (r.1.error == RecordNotFound || r.1.error == UniqueViolation)
    ensures r.1 == Err(RecordNotFound) <==> forall j :: 0 <= j < |rows| ==> rows[j].id != id
    ensures r.1.Ok? ==> exists i :: 0 <= i < |rows| && rows[i].id == id
                          && r.1.value == Apply(rows[i], patch) && r.0 == rows[i := r.1.value]
                          && !ClashesWithOthers(rows, r.1.value, i)
    ensures UniqueRows(rows) ==> forall i :: 0 <= i < |rows| && rows[i].id == id ==>
              (r.1.Ok? <==> !ClashesWithOthers(rows, Apply(rows[i], patch), i))
    ensures UniqueRows(rows) ==> UniqueRows(r.0)
  {
    match IndexOfId(rows, id)
    case None => (rows, Err(RecordNotFound))
    case Some(i) =>
      var v := Apply(rows[i], patch);
      if ClashesWithOthers(rows, v, i) then (rows, Err(UniqueViolation)) else (rows[i := v], Ok(v))
  }

  /**
   * `update(id, data)`: NotFoundError when no row has that id; DBError when
   * the updated row would break a unique constraint; otherwise that one row
   * takes the supplied columns and every other row is untouched.
   */
  function UpdateUser(rows: seq<User>, id: string, patch: UserPatch): (r: (seq<User>, Result<User, AppError>))
    ensures r.1.Err? ==> r.0 == rows
    ensures r.1 == Err(UserNotFound) <==> forall j :: 0 <= j < |rows| ==> rows[j].id != id
    ensures r.1.Err? ==> r.1 == Err(UserNotFound) || r.1 == Err(UserConflict)
    ensures r.1.Ok? ==> exists i :: 0 <= i < |rows| && rows[i].id == id
                          && r.1.value == Apply(rows[i], patch) && r.0 == rows[i := r.1.value]
                          && !ClashesWithOthers(rows, r.1.value, i)
    ensures UniqueRows(rows) ==> forall i :: 0 <= i < |rows| && rows[i].id == id ==>
              (r.1.Ok? <==> !ClashesWithOthers(rows, Apply(rows[i], patch), i))
    ensures UniqueRows(rows) ==> UniqueRows(r.0)
  {
    var (rows', result) := UpdateRow(rows, id, patch);
    match result
    case Ok(u) => (rows', Ok(u))
    case Err(f) => (rows', Err(UpdateFailure(f)))
  }

  /** `findByUsername(username)`: whether some row has that username. */
  function UsernameTaken(rows: seq<User>, username: string): (taken: bool)
    ensures taken <==> exists i :: 0 <= i < |rows| && rows[i].username == Some(username)
  {
    FirstIndex(rows, (u: User) => u.username == Some(username)).Some?
  }

  /** With unique ids, the row an update addresses is the only row with that id. */
  lemma UpdateAddressesOwnRow(rows: seq<User>, i: nat, patch: UserPatch)
    requires UniqueRows(rows) && i < |rows|
    ensures var r := UpdateUser(rows, rows[i].id, patch);
      r.1.Ok? ==> r.1.value == Apply(rows[i], patch) && r.0 == rows[i := r.1.value]
  {
  }

  /** No row's email or username equals another row's id, so a lookup by id finds the row the id belongs to. */
  ghost predicate IdsResolve(rows: seq<User>)
  {
    forall i, j :: 0 <= i < |rows| && 0 <= j < |rows| && i != j ==> !MatchesKey(rows[j], rows[i].id)
  }

  lemma FindUserById(rows: seq<User>, i: nat)
    requires IdsResolve(rows) && i < |rows|
    ensures FindUser(rows, rows[i].id) == Ok(rows[i])
  {
    var r := FindUser(rows, rows[i].id);
    assert MatchesKey(rows[i], rows[i].id);
    var k :| 0 <= k < |rows| && rows[k] == r.value && forall j :: 0 <= j < k ==> !MatchesKey(rows[j], rows[i].id);
    if k != i {
      assert !MatchesKey(rows[k], rows[i].id);
    }
  }

  /** An update that leaves id, email and username alone succeeds on a row addressed by its id, and changes that row only. */
  lemma UpdateKeepingKeys(rows: seq<User>, i: nat, patch: UserPatch)
    requires UniqueRows(rows) && i < |rows|
    requires patch.username.None? || patch.username == rows[i].username
    ensures UpdateUser(rows, rows[i].id, patch) == (rows[i := Apply(rows[i], patch)], Ok(Apply(rows[i], patch)))
  {
    var index := IndexOfId(rows, rows[i].id);
    assert index == Some(i) by {
      if index.value != i {
        assert Clash(rows[index.value], rows[i]);
      }
    }
    var v := Apply(rows[i], patch);
    assert !ClashesWithOthers(rows, v, i) by {
      forall j | 0 <= j < |rows| && j != i ensures !Clash(rows[j], v) {
        assert !Clash(rows[j], rows[i]);
      }
    }
  }

  /** A row just found by `getOne` can be updated by its id with any patch that keeps its username. */
  lemma UpdateFoundRow(rows: seq<User>, key: string, patch: UserPatch)
    requires UniqueRows(rows) && FindUser(rows, key).Ok?
    requires patch.username.None? || patch.username == FindUser(rows, key).value.username
    ensures var u := FindUser(rows, key).value;
      UpdateUser(rows, u.id, patch).1 == Ok(Apply(u, patch))
  {
    var u := FindUser(rows, key).value;
    var k :| 0 <= k < |rows| && rows[k] == u;
    UpdateKeepingKeys(rows, k, patch);
  }

  /** The user table, changed in place by `create` and `update`. */
  class UserRepository {
    var rows: seq<User>
    const defaultRole: string

    ghost predicate Valid()
      reads this
    {
      UniqueRows(rows)
    }

    constructor (defaultRole: string)
      ensures Valid() && rows == [] && this.defaultRole == defaultRole
    {
      rows := [];
      this.defaultRole := defaultRole;
    }

    method Create(data: NewUser, newId: string) returns (r: Result<User, AppError>)
      requires Valid()
      modifies this
      ensures Valid()
      ensures (rows, r) == CreateUser(old(rows), data, newId, defaultRole)
    {
      var record := NewRecord(newId, data, defaultRole);
      if ClashesWithOthers(rows, record, |rows|) {
        r := Err(CreateFailure(UniqueViolation));
      } else {
        rows := rows + [record];
        r := Ok(record);
      }
    }

    method Update(id: string, patch: UserPatch) returns (r: Result<User, AppError>)
      requires Valid()
      modifies this
      ensures Valid()
      ensures (rows, r) == UpdateUser(old(rows), id, patch)
    {
      var index := IndexOfId(rows, id);
      if index.None? {
        r := Err(UpdateFailure(RecordNotFound));
        return;
      }
      var i := index.value;
      var updated := Apply(rows[i], patch);
      if ClashesWithOthers(rows, updated, i) {
        r := Err(UpdateFailure(UniqueViolation));
      } else {
        rows := rows[i := updated];
        r := Ok(updated);
      }
    }
  }
}
