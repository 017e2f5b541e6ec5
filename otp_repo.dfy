/** src/infrastructure/db/auth/otp.repo.ts: the OTP store the wired service uses. */
module OtpRepo {
  import opened Wrappers
  import opened Errors
  import opened Tables
  import opened OtpTable

  const OtpConflict: AppError := DBError("OTP for this email already exists")
  const OtpNotDeleted: AppError := NotFoundError("OTP not found")

  /** The catch block of `getOne` for a fault of the query: NotFoundError is only ever the no-match case. */
  function LookupFailure(f: DbFailure): (e: AppError)
    ensures e == DBError("Failed to retrieve OTP from database")
  {
    DBError("Failed to retrieve OTP from database")
  }

  /** The catch block of `create`: every failure is a DBError. */
  function CreateFailure(f: DbFailure): (e: AppError)
    ensures e.DBError?
    ensures e == OtpConflict <==> f == UniqueViolation
  {
    match f
    case UniqueViolation => OtpConflict
    case Unexpected => DBError("Unexpected error occurred while creating OTP")
    case _ => DBError("Failed to create OTP in database")
  }

  /** The catch block of `delete`: a missing record is NotFoundError, anything else DBError. */
  function DeleteFailure(f: DbFailure): (e: AppError)
    ensures e == OtpNotDeleted <==> f == RecordNotFound
    ensures f != RecordNotFound ==> e.DBError?
  {
    match f
    case RecordNotFound => OtpNotDeleted
    case Unexpected => DBError("Unexpected error occurred while deleting OTP")
    case _ => DBError("Failed to delete OTP from database")
  }

  /** `create({userId, code})`: the upsert, with its failures translated. */
  function CreateOtp(rows: seq<Otp>, userId: string, code: string, newId: string): (r: (seq<Otp>, Result<Otp, AppError>))
    ensures r.1.Err? ==> r.0 == rows && r.1.error == OtpConflict
    ensures r.1.Ok? ==> r.1.value.userId == userId && r.1.value.code == code && r.1.value in r.0
    ensures (exists j :: 0 <= j < |rows| && rows[j].userId == userId) ==>
              r.1.Ok? && exists i :: 0 <= i < |rows| && rows[i].userId == userId && r.1.value.id == rows[i].id && r.0 == rows[i := r.1.value]
    ensures UniqueRows(rows) ==> UniqueRows(r.0)
  {
    var (rows', result) := Upsert(rows, userId, code, newId);
    match result
    case Ok(o) => (rows', Ok(o))
    case Err(f) => (rows', Err(CreateFailure(f)))
  }

  /** `delete(otpId)`: removes that record, or NotFoundError("OTP not found") without one. */
  function DeleteOtp(rows: seq<Otp>, id: string): (r: (seq<Otp>, Result<(), AppError>))
    ensures r.1.Err? <==> forall j :: 0 <= j < |rows| ==> rows[j].id != id
    ensures r.1.Err? ==> r.0 == rows && r.1.error == OtpNotDeleted
    ensures r.1.Ok? ==> exists o :: o in rows && o.id == id && multiset(r.0) + multiset{o} == multiset(rows)
    ensures r.1.Ok? && UniqueRows(rows) ==> forall j :: 0 <= j < |r.0| ==> r.0[j].id != id
    ensures UniqueRows(rows) ==> UniqueRows(r.0)
  {
    var (rows', result) := DeleteRow(rows, id);
    match result
    case Ok(o) =>
      assert o in multiset(rows);
      (rows', Ok(()))
    case Err(f) => (rows', Err(DeleteFailure(f)))
  }

  /** The OTP table, changed in place by `create` and `delete`. */
  class OtpRepository {
    var rows: seq<Otp>

    ghost predicate Valid()
      reads this
    {
      UniqueRows(rows)
    }

    constructor ()
      ensures Valid() && rows == []
    {
      rows := [];
    }

    method Create(userId: string, code: string, newId: string) returns (r: Result<Otp, AppError>)
      requires Valid()
      modifies this
      ensures Valid()
      ensures (rows, r) == CreateOtp(old(rows), userId, code, newId)
    {
      var (next, result) := Upsert(rows, userId, code, newId);
      rows := next;
      if result.Ok? {
        r := Ok(result.value);
      } else {
        r := Err(CreateFailure(result.error));
      }
    }

    method Delete(id: string) returns (r: Result<(), AppError>)
      requires Valid()
      modifies this
      ensures Valid()
      ensures (rows, r) == DeleteOtp(old(rows), id)
    {
      var (next, result) := DeleteRow(rows, id);
      rows := next;
      if result.Ok? {
        r := Ok(());
      } else {
        r := Err(DeleteFailure(result.error));
      }
    }
  }
}
