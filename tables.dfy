/**
 * The three database tables of the blood donation application (User,
 * Hospital, BloodRequirement), the queries the route handlers run on them,
 * and the constraints the schema puts on their rows.
 *
 * A table is a sequence of rows in row-id order. Queries without ORDER BY are
 * taken to return their rows in that order: SQL leaves the order undefined,
 * and SQLite gives row-id order for the full table scans these queries run.
 */
module Tables {

  datatype Option<T> = None | Some(value: T)

  /** A donor account (class User). */
  datatype User = User(
    id: nat,
    username: string,
    email: string,
    password: string,          // the stored password hash
    phone: string,
    latitude: Option<real>,
    longitude: Option<real>,
    bloodGroup: string,
    donationCount: int,
    lastDonationDate: Option<string>)

  /** A hospital account (class Hospital). */
  datatype Hospital = Hospital(
    id: nat,
    name: string,
    email: string,
    password: string,          // the stored password hash
    phone: string,
    city: string,
    latitude: Option<real>,
    longitude: Option<real>,
    verified: bool)

  /** An open request of a hospital for blood (class BloodRequirement). */
  datatype Requirement = Requirement(
    id: nat,
    hospitalId: nat,
    bloodGroup: string,
    urgency: string,
    unitsRequired: int)

  // Column selectors, passed to the generic queries below.
  function UserId(u: User): nat { u.id }
  function UserEmail(u: User): string { u.email }
  function UserName(u: User): string { u.username }
  function UserPhone(u: User): string { u.phone }
  function HospitalId(h: Hospital): nat { h.id }
  function HospitalEmail(h: Hospital): string { h.email }
  function RequirementId(r: Requirement): nat { r.id }

  /**
   * `filter_by(column=v).first()` and `query.get(id)`: the position of the
   * first row whose column holds `v`, or None when no row does.
   */
  function FindFirst<T, K(==)>(rows: seq<T>, column: T -> K, v: K): (r: Option<nat>)
    ensures r.Some? ==> r.value < |rows| && column(rows[r.value]) == v
    ensures r.Some? ==> forall j :: 0 <= j < r.value ==> column(rows[j]) != v
    ensures r.None? <==> forall j :: 0 <= j < |rows| ==> column(rows[j]) != v
  {
    if rows == [] then None
    else if column(rows[0]) == v then Some(0)
    else match FindFirst(rows[1..], column, v)
      case None => None
      case Some(k) => Some(k + 1)
  }

  /** No two rows share a value in `column` (a `unique=True` column). */
  ghost predicate Unique<T, K>(rows: seq<T>, column: T -> K) {
    forall i, j :: 0 <= i < j < |rows| ==> column(rows[i]) != column(rows[j])
  }

  /** Integer primary keys: positive and ascending in row order. */
  ghost predicate IdsAscending<T>(rows: seq<T>, id: T -> nat) {
    && (forall i :: 0 <= i < |rows| ==> 1 <= id(rows[i]))
    && (forall i, j :: 0 <= i < j < |rows| ==> id(rows[i]) < id(rows[j]))
  }

  /**
   * The id SQLite gives a newly inserted row: one more than the largest id in
   * the table, or 1 in an empty table.
   */
  function NextId<T>(rows: seq<T>, id: T -> nat): (n: nat)
    requires IdsAscending(rows, id)
    ensures 1 <= n
    ensures forall i :: 0 <= i < |rows| ==> id(rows[i]) < n
  {
    if rows == [] then 1 else id(rows[|rows| - 1]) + 1
  }

  /** `db.session.delete` of the row at position `i`. */
  function DeleteRow<T>(rows: seq<T>, i: nat): (r: seq<T>)
    requires i < |rows|
    ensures multiset(r) == multiset(rows) - multiset{rows[i]}
    ensures forall j :: 0 <= j < |r| ==> r[j] == if j < i then rows[j] else rows[j + 1]
  {
    assert rows == rows[..i] + [rows[i]] + rows[i + 1..];
    rows[..i] + rows[i + 1..]
  }

  /** `BloodRequirement.query.filter_by(hospital_id=hospitalId).all()`. */
  function RequirementsOf(reqs: seq<Requirement>, hospitalId: nat): (r: seq<Requirement>)
    ensures forall x :: multiset(r)[x] == if x.hospitalId == hospitalId then multiset(reqs)[x] else 0
    ensures forall j :: 0 <= j < |r| ==> r[j].hospitalId == hospitalId
  {
    if reqs == [] then []
    else
      var init, last := reqs[..|reqs| - 1], reqs[|reqs| - 1];
      assert reqs == init + [last];
      if last.hospitalId == hospitalId then RequirementsOf(init, hospitalId) + [last]
      else RequirementsOf(init, hospitalId)
  }

  /**
   * With ascending primary keys, the requirements of a hospital come in
   * ascending id order, that is, in table order; with the multiset fixed by
   * RequirementsOf's contract, IdsAscendingUnique shows that this leaves
   * exactly one possible list.
   */
  lemma {:induction false} RequirementsOfAscending(reqs: seq<Requirement>, hospitalId: nat)
    requires RequirementsValid(reqs)
    ensures IdsAscending(RequirementsOf(reqs, hospitalId), RequirementId)
  {
    if reqs != [] {
      var init, last := reqs[..|reqs| - 1], reqs[|reqs| - 1];
      var r := RequirementsOf(init, hospitalId);
      assert IdsAscending(init, RequirementId);
      RequirementsOfAscending(init, hospitalId);
      if last.hospitalId == hospitalId {
        forall j | 0 <= j < |r|
          ensures r[j].id < last.id
        {
          assert multiset(r)[r[j]] > 0;
          LastIdLargest(reqs, r[j]);
        }
        AppendLargerKeepsIdsAscending(r, RequirementId, last);
      }
    }
  }

  /** Two lists with strictly ascending ids and the same elements are equal. */
  lemma {:induction false} IdsAscendingUnique<T>(a: seq<T>, b: seq<T>, id: T -> nat)
    requires IdsAscending(a, id) && IdsAscending(b, id)
    requires multiset(a) == multiset(b)
    ensures a == b
  {
    if a == [] {
      assert |b| == |multiset(b)| == 0;
    } else {
      assert |b| == |multiset(b)| == |a|;
      AscendingHeadsEqual(a, b, id);
      AscendingTail(a, id);
      AscendingTail(b, id);
      IdsAscendingUnique(a[1..], b[1..], id);
    }
  }

  lemma AscendingTail<T>(a: seq<T>, id: T -> nat)
    requires IdsAscending(a, id) && a != []
    ensures IdsAscending(a[1..], id)
    ensures multiset(a[1..]) == multiset(a) - multiset{a[0]}
    ensures a == [a[0]] + a[1..]
  {
    assert a == [a[0]] + a[1..];
  }

  lemma AscendingHeadsEqual<T>(a: seq<T>, b: seq<T>, id: T -> nat)
    requires IdsAscending(a, id) && IdsAscending(b, id)
    requires multiset(a) == multiset(b) && a != [] && b != []
    ensures a[0] == b[0]
  {
    assert a[0] in multiset(b) && b[0] in multiset(a);
    var i :| 0 <= i < |a| && a[i] == b[0];
    var j :| 0 <= j < |b| && b[j] == a[0];
    assert id(a[0]) <= id(a[i]);
    assert id(b[0]) <= id(b[j]);
    AscendingIdsInjective(b, id, 0, j);
  }

  lemma AscendingIdsInjective<T>(rows: seq<T>, id: T -> nat, p: nat, q: nat)
    requires IdsAscending(rows, id) && p < |rows| && q < |rows|
    requires id(rows[p]) == id(rows[q])
    ensures p == q
  {
  }

  lemma LastIdLargest(reqs: seq<Requirement>, x: Requirement)
    requires RequirementsValid(reqs) && reqs != []
    requires x in reqs[..|reqs| - 1]
    ensures x.id < reqs[|reqs| - 1].id
  {
    var i :| 0 <= i < |reqs| - 1 && reqs[..|reqs| - 1][i] == x;
    assert reqs[i] == x;
  }

  lemma AppendLargerKeepsIdsAscending<T>(rows: seq<T>, id: T -> nat, x: T)
    requires IdsAscending(rows, id) && 1 <= id(x)
    requires forall j :: 0 <= j < |rows| ==> id(rows[j]) < id(x)
    ensures IdsAscending(rows + [x], id)
  {
  }

  /** The constraints of the User table: primary key, unique email, username and phone. */
  ghost predicate UsersValid(users: seq<User>) {
    && IdsAscending(users, UserId)
    && Unique(users, UserEmail)
    && Unique(users, UserName)
    && Unique(users, UserPhone)
  }

  /** The constraints of the Hospital table: primary key and unique email. */
  ghost predicate HospitalsValid(hospitals: seq<Hospital>) {
    && IdsAscending(hospitals, HospitalId)
    && Unique(hospitals, HospitalEmail)
  }

  /** The constraints of the BloodRequirement table: primary key. */
  ghost predicate RequirementsValid(reqs: seq<Requirement>) {
    IdsAscending(reqs, RequirementId)
  }

  /**
   * A form field counts as given when it was sent and is not the empty
   * string (the truthiness of a Python `str`).
   */
  predicate Given(field: Option<string>) {
    field.Some? && field.value != ""
  }

  /**
   * `float(field) if field else None`: the coordinate a signup stores. An
   * absent or empty field is stored as null; `toFloat` stands for `float`.
   */
  function StoredCoordinate(field: Option<string>, toFloat: string -> real): (c: Option<real>)
    ensures c.None? <==> (field.None? || field.value == "")
    ensures c.Some? ==> c.value == toFloat(field.value)
  {
    if Given(field) then Some(toFloat(field.value)) else None
  }

  lemma AppendKeepsUnique<T, K>(rows: seq<T>, column: T -> K, x: T)
    requires Unique(rows, column)
    requires forall j :: 0 <= j < |rows| ==> column(rows[j]) != column(x)
    ensures Unique(rows + [x], column)
  {
  }

  lemma AppendKeepsIdsAscending<T>(rows: seq<T>, id: T -> nat, x: T)
    requires IdsAscending(rows, id)
    requires id(x) == NextId(rows, id)
    ensures IdsAscending(rows + [x], id)
  {
  }

  lemma DeleteKeepsIdsAscending<T>(rows: seq<T>, id: T -> nat, i: nat)
    requires IdsAscending(rows, id) && i < |rows|
    ensures IdsAscending(DeleteRow(rows, i), id)
  {
  }
}
