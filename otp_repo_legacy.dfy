/**
 * src/infrastructure/db/otp.repo.ts: the OTP store of the legacy service.
 * The same table and the same lookup; every write failure, a missing record
 * included, becomes a DBError.
 */
module LegacyOtpRepo {
  import opened Wrappers
  import opened Errors
  import opened Tables
  import opened OtpTable

  /** The catch block of `getOne` for a fault of the query. */
  function LookupFailure(f: DbFailure): (e: AppError)
    ensures e == DBError("Database error")
  {
    DBError("Database error")
  }

  /** The catch block of `create`. */
  function CreateFailure(f: DbFailure): (e: AppError)
    ensures e.DBError?
    ensures f.IsKnown() <==> e == DBError("Error getting resources from DB2")
  {
    if f.IsKnown() then DBError("Error getting resources from DB2")
    else DBError("something went wrong while doing DB Operation")
  }

  /** The catch block of `update` and `delete`: a missing record is no different from any other fault. */
  function WriteFailure(f: DbFailure): (e: AppError)
    ensures e.DBError?
    ensures f.IsKnown() <==> e == DBError("Error getting resources from DB")
  {
    if f.IsKnown() then DBError("Error getting resources from DB")
    else DBError("something went wrong while doing DB Operation")
  }

  /** `create({userId, code})`: the upsert, with its failures translated. */
  function CreateOtp(rows: seq<Otp>, userId: string, code: string, newId: string): (r: (seq<Otp>, Result<Otp, AppError>))
    ensures r.1.Err? ==> r.0 == rows && r.1.error == DBError("Error getting resources from DB2")
    ensures r.1.Ok? ==> r.1.value.userId == userId && r.1.value.code == code && r.1.value in r.0
    ensures (exists j :: 0 <= j < |rows| && rows[j].userId == userId) ==>
              r.1.Ok? && exists i :: 0 <= i < |rows| && rows[i].userId == userId && r.1.value.id == rows[i].id && r.0 == rows[i := r.1.value]
    ensures UniqueRows(rows) ==> UniqueRows(r.0)
  {
    var (rows', result) := Upsert(rows, userId, code, newId);
    match result
    case Ok(o) => (rows', Ok(o))
    case Err(f) => (rows', Err(CreateFailure(f)))
  }

  /** `update(otpId, data)`: that record takes the supplied columns; a missing record is a DBError. */
  function UpdateOtp(rows: seq<Otp>, id: string, patch: OtpPatch): (r: (seq<Otp>, Result<Otp, AppError>))
    ensures r.1.Err? ==> r.0 == rows && r.1.error == DBError("Error getting resources from DB")
    ensures (forall j :: 0 <= j < |rows| ==> rows[j].id != id) ==> r.1.Err?
    ensures r.1.Ok? ==> exists i :: 0 <= i < |rows| && rows[i].id == id && r.0 == rows[i := r.1.value]
                          && r.1.value.id == id
                          && r.1.value.userId == (if patch.userId.Some? then patch.userId.value else rows[i].userId)
                          && r.1.value.code == (if patch.code.Some? then patch.code.value else rows[i].code)
    ensures UniqueRows(rows) ==> forall i :: 0 <= i < |rows| && rows[i].id == id ==>
              (r.1.Ok? <==> !ClashesWithOthers(rows, Apply(rows[i], patch), i))
    ensures UniqueRows(rows) ==> UniqueRows(r.0)
  {
    var (rows', result) := UpdateRow(rows, id, patch);
    match result
    case Ok(o) => (rows', Ok(o))
    case Err(f) => (rows', Err(WriteFailure(f)))
  }

  /** `delete(otpId)`: removes that record; a missing record is a DBError, not NotFoundError. */
  function DeleteOtp(rows: seq<Otp>, id: string): (r: (seq<Otp>, Result<(), AppError>))
    ensures r.1.Err? <==> forall j :: 0 <= j < |rows| ==> rows[j].id != id
    ensures r.1.Err? ==> r.0 == rows && r.1.error == DBError("Error getting resources from DB")
    ensures r.1.Ok? ==> exists o :: o in rows && o.id == id && multiset(r.0) + multiset{o} == multiset(rows)
    ensures UniqueRows(rows) ==> UniqueRows(r.0)
  {
    var (rows', result) := DeleteRow(rows, id);
    match result
    case Ok(o) =>
      assert o in multiset(rows);
      (rows', Ok(()))
    case Err(f) => (rows', Err(WriteFailure(f)))
  }

  /**
   * An update that leaves `userId` alone always succeeds on an existing
   * record: that record takes the patch and every other record stays.
   */
  lemma UpdateKeepingOwner(rows: seq<Otp>, i: nat, patch: OtpPatch)
    requires UniqueRows(rows) && i < |rows|
    requires patch.userId.None? || patch.userId == Some(rows[i].userId)
    ensures UpdateOtp(rows, rows[i].id, patch) == (rows[i := Apply(rows[i], patch)], Ok(Apply(rows[i], patch)))
  {
    var o := Apply(rows[i], patch);
    forall j | 0 <= j < |rows| && j != i
      ensures !Clash(rows[j], o)
    {
      assert !Clash(rows[i], rows[j]);
    }
  }

  /** The OTP table, changed in place by `create`, `update` and `delete`. */
  class OtpRepository {
    var rows: seq<Otp>

    ghost predicate Valid()
      reads this
    {
      UniqueRows(rows)
    }

    constructor ()
      ensures Valid() && rows == []
    {
      rows := [];
    }

    method Create(userId: string, code: string, newId: string) returns (r: Result<Otp, AppError>)
      requires Valid()
      modifies this
      ensures Valid()
      ensures (rows, r) == CreateOtp(old(rows), userId, code, newId)
    {
      var (next, result) := Upsert(rows, userId, code, newId);
      rows := next;
      if result.Ok? {
        r := Ok(result.value);
      } else {
        r := Err(CreateFailure(result.error));
      }
    }

    method Update(id: string, patch: OtpPatch) returns (r: Result<Otp, AppError>)
      requires Valid()
      modifies this
      ensures Valid()
      ensures (rows, r) == UpdateOtp(old(rows), id, patch)
    {
      var (next, result) := UpdateRow(rows, id, patch);
      rows := next;
      if result.Ok? {
        r := Ok(result.value);
      } else {
        r := Err(WriteFailure(result.error));
      }
    }

    method Delete(id: string) returns (r: Result<(), AppError>)
      requires Valid()
      modifies this
      ensures Valid()
      ensures (rows, r) == DeleteOtp(old(rows), id)
    {
      var (next, result) := DeleteRow(rows, id);
      rows := next;
      if result.Ok? {
        r := Ok(());
      } else {
        r := Err(WriteFailure(result.error));
      }
    }
  }
}
