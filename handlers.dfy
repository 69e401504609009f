/**
 * The route handlers of app.py as a state machine over the three tables and
 * the session of one client. Each POST handler is a method that says which
 * table or session entries it changes and what it answers.
 *
 * Password hashing is outside the model: signup receives the already
 * computed hash, and login receives `check`, which stands for
 * `check_password_hash(stored_hash, password)`. `toFloat` stands for
 * Python's `float` applied to a form string.
 */
module Handlers {
  import opened Tables
  import opened Sorting
  import opened Matching

  /**
   * The Flask session: the three keys the application ever writes
   * (`user_id`, `hospital_id`, `role`), each possibly absent.
   */
  datatype Session = Session(userId: Option<nat>, hospitalId: Option<nat>, role: Option<string>)

  const EmptySession := Session(None, None, None)
  const HospitalRole := "hospital"

  /** What a handler answers. */
  datatype Response =
    | Text(body: string, status: nat)            // a string returned from the view (status 200 unless given)
    | Redirect(endpoint: string)                 // redirect(url_for(endpoint))
    | DashboardPage(hospital: Hospital, requirements: seq<Requirement>)
    | AskResultsPage(donors: seq<DonorMatch>, hospitals: seq<HospitalMatch>, bloodGroup: Option<string>)
    | DonatePage(hospitals: seq<HospitalMatch>)

  const LocationMissing := "Location not received. Allow location access."

  /**
   * The id ask_blood excludes from the donor search: the session's `user_id`
   * when it is present and truthy.
   */
  function ExcludedDonor(s: Session): Option<nat> {
    if s.userId.Some? && s.userId.value != 0 then s.userId else None
  }

  /**
   * What every handler keeps true of the session: a hospital role comes with
   * a hospital id, and that id names a hospital in the table.
   */
  ghost predicate SessionValid(s: Session, hospitals: seq<Hospital>) {
    && (s.role == Some(HospitalRole) ==> s.hospitalId.Some?)
    && (s.hospitalId.Some? ==> exists i :: 0 <= i < |hospitals| && hospitals[i].id == s.hospitalId.value)
  }

  class App {
    var users: seq<User>
    var hospitals: seq<Hospital>
    var requirements: seq<Requirement>
    var session: Session

    ghost predicate Valid()
      reads this
    {
      && UsersValid(users)
      && HospitalsValid(hospitals)
      && RequirementsValid(requirements)
      && SessionValid(session, hospitals)
    }

    /** The application over an existing database file and a fresh session. */
    constructor (users0: seq<User>, hospitals0: seq<Hospital>, requirements0: seq<Requirement>)
      requires UsersValid(users0) && HospitalsValid(hospitals0) && RequirementsValid(requirements0)
      ensures Valid()
      ensures users == users0 && hospitals == hospitals0 && requirements == requirements0
      ensures session == EmptySession
    {
      users, hospitals, requirements := users0, hospitals0, requirements0;
      session := EmptySession;
    }

    /**
     * POST /signup/donor. Email, then username, then phone must be unused;
     * otherwise nothing changes. On success one user row is appended and the
     * session's `user_id` names it.
     */
    method SignupDonor(username: string, email: string, passwordHash: string, phone: string, bloodGroup: string,
                       latitude: Option<string>, longitude: Option<string>, toFloat: string -> real)
      returns (r: Response)
      requires Valid()
      modifies this`users, this`session
      ensures Valid()
      ensures FindFirst(old(users), UserEmail, email).Some? ==>
                r == Text("Email already registered!", 200) && users == old(users) && session == old(session)
      ensures FindFirst(old(users), UserEmail, email).None? && FindFirst(old(users), UserName, username).Some? ==>
                r == Text("Username already taken!", 200) && users == old(users) && session == old(session)
      ensures FindFirst(old(users), UserEmail, email).None? && FindFirst(old(users), UserName, username).None?
              && FindFirst(old(users), UserPhone, phone).Some? ==>
                r == Text("Phone number already registered!", 200) && users == old(users) && session == old(session)
      ensures FindFirst(old(users), UserEmail, email).None? && FindFirst(old(users), UserName, username).None?
              && FindFirst(old(users), UserPhone, phone).None? ==>
                var id := NextId(old(users), UserId);
                && r == Redirect("home")
                && users == old(users) + [User(id, username, email, passwordHash, phone,
                                               StoredCoordinate(latitude, toFloat), StoredCoordinate(longitude, toFloat),
                                               bloodGroup, 0, None)]
                && session == old(session).(userId := Some(id))
    {
      if FindFirst(users, UserEmail, email).Some? {
        return Text("Email already registered!", 200);
      }
      if FindFirst(users, UserName, username).Some? {
        return Text("Username already taken!", 200);
      }
      if FindFirst(users, UserPhone, phone).Some? {
        return Text("Phone number already registered!", 200);
      }
      var id := NextId(users, UserId);
      var newUser := User(id, username, email, passwordHash, phone,
                          StoredCoordinate(latitude, toFloat), StoredCoordinate(longitude, toFloat),
                          bloodGroup, 0, None);
      AppendKeepsIdsAscending(users, UserId, newUser);
      AppendKeepsUnique(users, UserEmail, newUser);
      AppendKeepsUnique(users, UserName, newUser);
      AppendKeepsUnique(users, UserPhone, newUser);
      users := users + [newUser];
      session := session.(userId := Some(id));
      r := Redirect("home");
    }

    /**
     * POST /signup/hospital. Only the email must be unused. On success one
     * verified hospital row is appended and the session gets its
     * `hospital_id` and the hospital role; `user_id` is left as it was.
     */
    method SignupHospital(name: string, email: string, passwordHash: string, phone: string, city: string,
                          latitude: Option<string>, longitude: Option<string>, toFloat: string -> real)
      returns (r: Response)
      requires Valid()
      modifies this`hospitals, this`session
      ensures Valid()
      ensures FindFirst(old(hospitals), HospitalEmail, email).Some? ==>
                r == Text("Hospital already registered!", 200) && hospitals == old(hospitals) && session == old(session)
      ensures FindFirst(old(hospitals), HospitalEmail, email).None? ==>
                var id := NextId(old(hospitals), HospitalId);
                && r == Redirect("hospital_dashboard")
                && hospitals == old(hospitals) + [Hospital(id, name, email, passwordHash, phone, city,
                                                           StoredCoordinate(latitude, toFloat),
                                                           StoredCoordinate(longitude, toFloat), true)]
                && session == old(session).(hospitalId := Some(id), role := Some(HospitalRole))
    {
      if FindFirst(hospitals, HospitalEmail, email).Some? {
        return Text("Hospital already registered!", 200);
      }
      var id := NextId(hospitals, HospitalId);
      var hospital := Hospital(id, name, email, passwordHash, phone, city,
                               StoredCoordinate(latitude, toFloat), StoredCoordinate(longitude, toFloat), true);
      AppendKeepsIdsAscending(hospitals, HospitalId, hospital);
      AppendKeepsUnique(hospitals, HospitalEmail, hospital);
      hospitals := hospitals + [hospital];
      assert hospitals[|hospitals| - 1].id == id;
      session := session.(hospitalId := Some(id), role := Some(HospitalRole));
      r := Redirect("hospital_dashboard");
    }

    /**
     * POST /login/donor. An unknown email and a wrong password leave the
     * session alone; a correct password sets `user_id` and nothing else.
     */
    method LoginDonor(email: string, password: string, check: (string, string) -> bool)
      returns (r: Response)
      requires Valid()
      modifies this`session
      ensures Valid()
      ensures FindFirst(users, UserEmail, email).None? ==>
                r == Text("User not registered!", 200) && session == old(session)
      ensures FindFirst(users, UserEmail, email).Some? ==>
                var u := users[FindFirst(users, UserEmail, email).value];
                if check(u.password, password)
                then r == Redirect("home") && session == old(session).(userId := Some(u.id))
                else r == Text("Incorrect password!", 200) && session == old(session)
    {
      var found := FindFirst(users, UserEmail, email);
      if found.None? {
        return Text("User not registered!", 200);
      }
      var u := users[found.value];
      if check(u.password, password) {
        session := session.(userId := Some(u.id));
        r := Redirect("home");
      } else {
        r := Text("Incorrect password!", 200);
      }
    }

    /**
     * POST /login/hospital. An unverified hospital is turned away before its
     * password is looked at. A correct password clears the session, which
     * then holds exactly the hospital's id and the hospital role.
     */
    method LoginHospital(email: string, password: string, check: (string, string) -> bool)
      returns (r: Response)
      requires Valid()
      modifies this`session
      ensures Valid()
      ensures FindFirst(hospitals, HospitalEmail, email).None? ==>
                r == Text("Hospital not registered!", 200) && session == old(session)
      ensures FindFirst(hospitals, HospitalEmail, email).Some? ==>
                var h := hospitals[FindFirst(hospitals, HospitalEmail, email).value];
                if !h.verified
                then r == Text("Hospital not verified yet!", 200) && session == old(session)
                else if check(h.password, password)
                then r == Redirect("hospital_dashboard") && session == Session(None, Some(h.id), Some(HospitalRole))
                else r == Text("Incorrect password!", 200) && session == old(session)
    {
      var found := FindFirst(hospitals, HospitalEmail, email);
      if found.None? {
        return Text("Hospital not registered!", 200);
      }
      var h := hospitals[found.value];
      if !h.verified {
        return Text("Hospital not verified yet!", 200);
      }
      if check(h.password, password) {
        session := EmptySession;
        session := session.(hospitalId := Some(h.id));
        session := session.(role := Some(HospitalRole));
        r := Redirect("hospital_dashboard");
      } else {
        r := Text("Incorrect password!", 200);
      }
    }

    /**
     * GET /hospital/dashboard. Without the hospital role the client is sent
     * home; with it, the page shows the session's hospital and exactly its
     * requirements.
     */
    method HospitalDashboard() returns (r: Response)
      requires Valid()
      ensures session.role != Some(HospitalRole) ==> r == Redirect("home")
      ensures session.role == Some(HospitalRole) ==>
                exists i :: 0 <= i < |hospitals| && hospitals[i].id == session.hospitalId.value
                            && r == DashboardPage(hospitals[i], RequirementsOf(requirements, hospitals[i].id))
    {
      if session.role != Some(HospitalRole) {
        return Redirect("home");
      }
      var hid := session.hospitalId.value;
      var found := FindFirst(hospitals, HospitalId, hid);
      var i := found.value;
      r := DashboardPage(hospitals[i], RequirementsOf(requirements, hospitals[i].id));
    }

    /**
     * POST /hospital/add-blood-requirement. Needs a `hospital_id` in the
     * session (the role is not checked); appends one requirement owned by
     * that hospital.
     */
    method AddBloodRequirement(bloodGroup: string, urgency: string, units: int) returns (r: Response)
      requires Valid()
      modifies this`requirements
      ensures Valid()
      ensures session.hospitalId.None? ==> r == Redirect("login") && requirements == old(requirements)
      ensures session.hospitalId.Some? ==>
                && r == Redirect("hospital_dashboard")
                && requirements == old(requirements) + [Requirement(NextId(old(requirements), RequirementId),
                                                                    session.hospitalId.value, bloodGroup, urgency, units)]
    {
      if session.hospitalId.None? {
        return Redirect("login");
      }
      var requirement := Requirement(NextId(requirements, RequirementId), session.hospitalId.value,
                                     bloodGroup, urgency, units);
      AppendKeepsIdsAscending(requirements, RequirementId, requirement);
      requirements := requirements + [requirement];
      r := Redirect("hospital_dashboard");
    }

    /**
     * POST /hospital/remove-blood-requirement/<req_id>. Deletes the
     * requirement only for a client with the hospital role whose
     * `hospital_id` owns it; in every other case the table is unchanged.
     */
    method RemoveBloodRequirement(reqId: nat) returns (r: Response)
      requires Valid()
      modifies this`requirements
      ensures Valid()
      ensures session.role != Some(HospitalRole) ==> r == Redirect("home")
      ensures session.role == Some(HospitalRole) ==> r == Redirect("hospital_dashboard")
      ensures var found := FindFirst(old(requirements), RequirementId, reqId);
              requirements ==
                if session.role == Some(HospitalRole) && found.Some?
                   && old(requirements)[found.value].hospitalId == session.hospitalId.value
                then DeleteRow(old(requirements), found.value)
                else old(requirements)
    {
      if session.role != Some(HospitalRole) {
        return Redirect("home");
      }
      var found := FindFirst(requirements, RequirementId, reqId);
      if found.Some? && requirements[found.value].hospitalId == session.hospitalId.value {
        DeleteKeepsIdsAscending(requirements, RequirementId, found.value);
        requirements := DeleteRow(requirements, found.value);
      }
      r := Redirect("hospital_dashboard");
    }

    /** GET /logout: removes `user_id` only; `hospital_id` and `role` stay. */
    method Logout() returns (r: Response)
      requires Valid()
      modifies this`session
      ensures Valid()
      ensures session == old(session).(userId := None)
      ensures r == Redirect("home")
    {
      session := session.(userId := None);
      r := Redirect("home");
    }

    /**
     * POST /ask_blood. Without both coordinates the answer is the 400 error
     * and no list is built. Otherwise both lists are the sorted candidate
     * lists: donors of the requested group other than the logged-in donor,
     * and verified hospitals with coordinates that are not None.
     */
    method AskBlood(bloodGroup: Option<string>, latitude: Option<string>, longitude: Option<string>,
                    toFloat: string -> real, distance: Distance)
      returns (r: Response)
      ensures !Given(latitude) || !Given(longitude) ==> r == Text(LocationMissing, 400)
      ensures Given(latitude) && Given(longitude) ==>
                var lat, lon := toFloat(latitude.value), toFloat(longitude.value);
                && r == AskResultsPage(
                     SortByKey(DonorCandidates(users, bloodGroup, ExcludedDonor(session), lat, lon, distance), DonorDistance),
                     SortByKey(HospitalCandidates(hospitals, requirements, IsNotNone, lat, lon, distance), HospitalDistance),
                     bloodGroup)
                && SortedBy(r.donors, DonorDistance)
                && SortedBy(r.hospitals, HospitalDistance)
    {
      if !Given(latitude) || !Given(longitude) {
        return Text(LocationMissing, 400);
      }
      var lat, lon := toFloat(latitude.value), toFloat(longitude.value);
      var donors := MatchDonors(users, bloodGroup, ExcludedDonor(session), lat, lon, distance);
      var hospitalList := MatchHospitals(hospitals, requirements, IsNotNone, lat, lon, distance);
      r := AskResultsPage(donors, hospitalList, bloodGroup);
    }

    /**
     * POST /donate-blood: the sorted list of verified hospitals whose
     * coordinates are truthy (present and not 0.0).
     */
    method DonateBlood(lat: real, lon: real, distance: Distance) returns (r: Response)
      ensures r == DonatePage(SortByKey(HospitalCandidates(hospitals, requirements, Truthiness, lat, lon, distance),
                                        HospitalDistance))
      ensures SortedBy(r.hospitals, HospitalDistance)
      ensures forall m :: m in r.hospitals ==> m.latitude != 0.0 && m.longitude != 0.0
    {
      var hospitalList := MatchHospitals(hospitals, requirements, Truthiness, lat, lon, distance);
      HospitalListSound(hospitals, requirements, Truthiness, lat, lon, distance);
      r := DonatePage(hospitalList);
    }
  }
}
