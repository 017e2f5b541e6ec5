/**
 * What the repositories rely on from the database: a table is its rows in
 * storage order; `findFirst` returns the first row that matches its filter;
 * writes fail on a unique-constraint conflict (Prisma code P2002) or on a
 * missing row (P2025). The tables here only ever produce those two; the other
 * two kinds are the faults of the database itself (another known request
 * error, or an exception that is not a Prisma request error), which the
 * repositories translate but the model never raises.
 */
module Tables {
  import opened Wrappers

  datatype DbFailure = UniqueViolation | RecordNotFound | OtherKnown | Unexpected {
    /** `error instanceof Prisma.PrismaClientKnownRequestError` */
    predicate IsKnown() { !Unexpected? }
  }

  /** The index of the first row satisfying `p`. */
  function FirstIndex<R>(rows: seq<R>, p: R -> bool): (r: Option<nat>)
    ensures r.Some? ==> r.value < |rows| && p(rows[r.value])
    ensures r.Some? ==> forall j :: 0 <= j < r.value ==> !p(rows[j])
    ensures r.None? <==> forall j :: 0 <= j < |rows| ==> !p(rows[j])
  {
    if rows == [] then None
    else if p(rows[0]) then Some(0)
    else match FirstIndex(rows[1..], p)
      case None => None
      case Some(i) => Some(i + 1)
  }

  /** The rows without the one at index `i`, the others in their order. */
  function RemoveAt<R>(rows: seq<R>, i: nat): (r: seq<R>)
    requires i < |rows|
    ensures |r| == |rows| - 1
    ensures forall j :: 0 <= j < i ==> r[j] == rows[j]
    ensures forall j :: i <= j < |r| ==> r[j] == rows[j + 1]
  {
    rows[..i] + rows[i + 1..]
  }

  /** Removing a row keeps exactly the other rows. */
  lemma RemoveAtElements<R>(rows: seq<R>, i: nat)
    requires i < |rows|
    ensures multiset(RemoveAt(rows, i)) + multiset{rows[i]} == multiset(rows)
  {
    assert rows == rows[..i] + [rows[i]] + rows[i + 1..];
  }
}
