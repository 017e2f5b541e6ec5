/**
 * The `codeOtp` table as both OTP repositories see it through Prisma: `id`
 * and `userId` are unique columns (the upsert is keyed by `userId`). The
 * code column carries no constraint.
 */
module OtpTable {
  import opened Wrappers
  import opened Errors
  import opened Tables

  datatype Otp = Otp(id: string, userId: string, code: string)

  /** `update` data: `None` means "not supplied". */
  datatype OtpPatch = OtpPatch(userId: Option<string>, code: Option<string>)

  /** A record after an update: it keeps its id, and the supplied columns take the supplied values. */
  function Apply(o: Otp, p: OtpPatch): Otp
  {
    Otp(o.id, if p.userId.Some? then p.userId.value else o.userId, if p.code.Some? then p.code.value else o.code)
  }

  predicate Clash(a: Otp, b: Otp)
  {
    a.id == b.id || a.userId == b.userId
  }

  ghost predicate UniqueRows(rows: seq<Otp>)
  {
    forall i, j :: 0 <= i < |rows| && 0 <= j < |rows| && i != j ==> !Clash(rows[i], rows[j])
  }

  /** Whether `o`, written at index `skip` (or appended, for `skip == |rows|`), breaks a unique constraint. */
  predicate ClashesWithOthers(rows: seq<Otp>, o: Otp, skip: nat)
  {
    exists j :: 0 <= j < |rows| && j != skip && Clash(rows[j], o)
  }

  /** The `OR: [{userId}, {code}]` filter of `getOne`. */
  predicate MatchesKey(o: Otp, key: string)
  {
    o.userId == key || o.code == key
  }

  /** `findFirst` with that filter: the first row whose userId or code equals `key`. */
  function FindOtp(rows: seq<Otp>, key: string): (r: Option<Otp>)
    ensures r.Some? ==> MatchesKey(r.value, key)
    ensures r.Some? ==> exists i :: 0 <= i < |rows| && rows[i] == r.value && forall j :: 0 <= j < i ==> !MatchesKey(rows[j], key)
    ensures r.None? <==> forall j :: 0 <= j < |rows| ==> !MatchesKey(rows[j], key)
  {
    match FirstIndex(rows, (o: Otp) => MatchesKey(o, key))
    case Some(i) => Some(rows[i])
    case None => None
  }

  const OtpMissing: AppError := NotFoundError("Data not founds")

  /**
   * `getOne(userIdOrCode)` in both repositories, for a query that does not
   * itself fail: the first matching record, else NotFoundError, passed on as it is.
   */
  function GetOne(rows: seq<Otp>, key: string): (r: Result<Otp, AppError>)
    ensures r.Ok? ==> MatchesKey(r.value, key) && r.value in rows
    ensures r.Err? <==> forall j :: 0 <= j < |rows| ==> !MatchesKey(rows[j], key)
    ensures r.Err? ==> r.error == OtpMissing
  {
    match FindOtp(rows, key)
    case Some(o) => Ok(o)
    case None => Err(OtpMissing)
  }

  /** A user id always finds that user's record, or a record whose code happens to equal it: the id works as a code. */
  lemma UserIdFindsARecord(rows: seq<Otp>, i: nat)
    requires i < |rows|
    ensures GetOne(rows, rows[i].userId).Ok?
  {
  }

  function IndexOfUser(rows: seq<Otp>, userId: string): (r: Option<nat>)
    ensures r.Some? ==> r.value < |rows| && rows[r.value].userId == userId
    ensures r.None? <==> forall j :: 0 <= j < |rows| ==> rows[j].userId != userId
  {
    FirstIndex(rows, (o: Otp) => o.userId == userId)
  }

  function IndexOfId(rows: seq<Otp>, id: string): (r: Option<nat>)
    ensures r.Some? ==> r.value < |rows| && rows[r.value].id == id
    ensures r.None? <==> forall j :: 0 <= j < |rows| ==> rows[j].id != id
  {
    FirstIndex(rows, (o: Otp) => o.id == id)
  }

  /**
   * `upsert({where: {userId}, update: {code}, create: {userId, code}})`: the
   * user's record keeps its id and takes the new code; without one, a record
   * with the database's fresh id `newId` is appended.
   */
  function Upsert(rows: seq<Otp>, userId: string, code: string, newId: string): (r: (seq<Otp>, Result<Otp, DbFailure>))
    ensures r.1.Err? ==> r.0 == rows && r.1.error == UniqueViolation
    ensures r.1.Ok? ==> r.1.value.userId == userId && r.1.value.code == code && r.1.value in r.0
    ensures (exists j :: 0 <= j < |rows| && rows[j].userId == userId) ==> r.1.Ok?
    ensures r.1.Ok? && (exists j :: 0 <= j < |rows| && rows[j].userId == userId) ==>
              exists i :: 0 <= i < |rows| && rows[i].userId == userId && r.1.value.id == rows[i].id && r.0 == rows[i := r.1.value]
    ensures (forall j :: 0 <= j < |rows| ==> rows[j].userId != userId) ==>
              if ClashesWithOthers(rows, Otp(newId, userId, code), |rows|) then r.1.Err?
              else r.1 == Ok(Otp(newId, userId, code)) && r.0 == rows + [r.1.value]
    ensures UniqueRows(rows) ==> UniqueRows(r.0)
  {
    match IndexOfUser(rows, userId)
    case Some(i) =>
      var o := Otp(rows[i].id, userId, code);
      assert rows[i := o][i] == o;
      (rows[i := o], Ok(o))
    case None =>
      var o := Otp(newId, userId, code);
      if ClashesWithOthers(rows, o, |rows|) then (rows, Err(UniqueViolation)) else (rows + [o], Ok(o))
  }

  /** `update({where: {id}, data})`: P2025 without such a record, P2002 on a conflict. */
  function UpdateRow(rows: seq<Otp>, id: string, patch: OtpPatch): (r: (seq<Otp>, Result<Otp, DbFailure>))
    ensures r.1.Err? ==> r.0 == rows && (r.1.error == RecordNotFound || r.1.error == UniqueViolation)
    ensures r.1 == Err(RecordNotFound) <==> forall j :: 0 <= j < |rows| ==> rows[j].id != id
    ensures r.1.Ok? ==> exists i :: 0 <= i < |rows| && rows[i].id == id && r.0 == rows[i := r.1.value]
                          && r.1.value.id == id
                          && r.1.value.userId == (if patch.userId.Some? then patch.userId.value else rows[i].userId)
                          && r.1.value.code == (if patch.code.Some? then patch.code.value else rows[i].code)
                          && !ClashesWithOthers(rows, r.1.value, i)
    ensures UniqueRows(rows) ==> forall i :: 0 <= i < |rows| && rows[i].id == id ==>
              (r.1.Ok? <==> !ClashesWithOthers(rows, Apply(rows[i], patch), i))
    ensures UniqueRows(rows) ==> UniqueRows(r.0)
  {
    match IndexOfId(rows, id)
    case None => (rows, Err(RecordNotFound))
    case Some(i) =>
      var o := Apply(rows[i], patch);
      if ClashesWithOthers(rows, o, i) then (rows, Err(UniqueViolation)) else (rows[i := o], Ok(o))
  }

  /** `delete({where: {id}})`: removes exactly that record; P2025 without one. */
  function DeleteRow(rows: seq<Otp>, id: string): (r: (seq<Otp>, Result<Otp, DbFailure>))
    ensures r.1.Err? <==> forall j :: 0 <= j < |rows| ==> rows[j].id != id
    ensures r.1.Err? ==> r.0 == rows && r.1.error == RecordNotFound
    ensures r.1.Ok? ==> r.1.value.id == id && multiset(r.0) + multiset{r.1.value} == multiset(rows)
    ensures r.1.Ok? && UniqueRows(rows) ==> forall j :: 0 <= j < |r.0| ==> r.0[j].id != id
    ensures UniqueRows(rows) ==> UniqueRows(r.0)
  {
    match IndexOfId(rows, id)
    case None => (rows, Err(RecordNotFound))
    case Some(i) =>
      RemoveAtElements(rows, i);
      (RemoveAt(rows, i), Ok(rows[i]))
  }

  /** The upsert keeps at most one record per user, and it holds the last code given. */
  lemma {:induction false} UpsertLeavesOneCode(rows: seq<Otp>, userId: string, code: string, newId: string)
    requires UniqueRows(rows)
    ensures var (rows', r) := Upsert(rows, userId, code, newId);
      r.Ok? ==> forall j :: 0 <= j < |rows'| && rows'[j].userId == userId ==> rows'[j] == r.value
  {
    var (rows', r) := Upsert(rows, userId, code, newId);
    if r.Ok? {
      assert UniqueRows(rows');
      var k :| 0 <= k < |rows'| && rows'[k] == r.value;
      forall j | 0 <= j < |rows'| && rows'[j].userId == userId ensures rows'[j] == r.value {
        if j != k {
          assert Clash(rows'[j], rows'[k]);
        }
      }
    }
  }

  /** The upsert touches no other user's record. */
  lemma UpsertKeepsOthers(rows: seq<Otp>, userId: string, code: string, newId: string, other: string)
    requires other != userId
    ensures var (rows', r) := Upsert(rows, userId, code, newId);
      forall j :: 0 <= j < |rows'| && rows'[j].userId == other ==> rows'[j] in rows
  {
  }
}
