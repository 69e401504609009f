/**
 * The proximity match lists built by the ask_blood and donate_blood routes:
 * a pass over a table that keeps the rows passing the query's filter and the
 * coordinate test, turns each survivor into a result record carrying its
 * distance from the requester, and then sorts the list by that distance.
 *
 * The distance is a parameter: it stands for
 * `round(haversine(lat1, lon1, lat2, lon2), 2)`.
 */
module Matching {
  import opened Tables
  import opened Sorting

  type Distance = (real, real, real, real) -> real

  /** One row of the donor list: the dict built at app.py line 278. */
  datatype DonorMatch = DonorMatch(username: string, bloodGroup: string, distance: real, phone: string)

  /** One row of a hospital list: the dict built at app.py lines 302 and 349. */
  datatype HospitalMatch = HospitalMatch(
    name: string,
    city: string,
    distance: real,
    phone: string,
    latitude: real,
    longitude: real,
    requirements: seq<Requirement>)

  function DonorDistance(d: DonorMatch): real { d.distance }
  function HospitalDistance(h: HospitalMatch): real { h.distance }

  /**
   * How a route decides that a stored coordinate is usable: ask_blood tests
   * `is not None`, donate_blood tests the truthiness of the float, which is
   * also false for 0.0.
   */
  datatype CoordinateTest = IsNotNone | Truthiness

  predicate HasCoordinate(test: CoordinateTest, c: Option<real>) {
    match test
    case IsNotNone => c.Some?
    case Truthiness => c.Some? && c.value != 0.0
  }

  /**
   * A donor row survives when the query `filter_by(blood_group=...)` and the
   * optional `User.id != user_id` filter keep it and both coordinates are
   * present. A missing blood group field filters for NULL, which no row holds.
   */
  predicate DonorQualifies(u: User, bloodGroup: Option<string>, exclude: Option<nat>) {
    && bloodGroup == Some(u.bloodGroup)
    && (exclude.Some? ==> u.id != exclude.value)
    && u.latitude.Some? && u.longitude.Some?
  }

  function DonorRecord(u: User, lat: real, lon: real, distance: Distance): DonorMatch
    requires u.latitude.Some? && u.longitude.Some?
  {
    DonorMatch(u.username, u.bloodGroup, distance(lat, lon, u.latitude.value, u.longitude.value), u.phone)
  }

  /** The donor list before sorting: one record per surviving row, in table order. */
  function DonorCandidates(users: seq<User>, bloodGroup: Option<string>, exclude: Option<nat>,
                           lat: real, lon: real, distance: Distance): (r: seq<DonorMatch>)
    ensures |r| <= |users|
    ensures forall j :: 0 <= j < |r| ==> bloodGroup == Some(r[j].bloodGroup)
  {
    if users == [] then []
    else
      var init, u := users[..|users| - 1], users[|users| - 1];
      if DonorQualifies(u, bloodGroup, exclude)
      then DonorCandidates(init, bloodGroup, exclude, lat, lon, distance) + [DonorRecord(u, lat, lon, distance)]
      else DonorCandidates(init, bloodGroup, exclude, lat, lon, distance)
  }

  /** A hospital row survives `filter_by(verified=True)` and the route's coordinate test. */
  predicate HospitalQualifies(h: Hospital, test: CoordinateTest) {
    h.verified && HasCoordinate(test, h.latitude) && HasCoordinate(test, h.longitude)
  }

  function HospitalRecord(h: Hospital, reqs: seq<Requirement>, lat: real, lon: real, distance: Distance): HospitalMatch
    requires h.latitude.Some? && h.longitude.Some?
  {
    HospitalMatch(h.name, h.city, distance(lat, lon, h.latitude.value, h.longitude.value), h.phone,
                  h.latitude.value, h.longitude.value, RequirementsOf(reqs, h.id))
  }

  /** The hospital list before sorting: one record per surviving row, in table order. */
  function HospitalCandidates(hospitals: seq<Hospital>, reqs: seq<Requirement>, test: CoordinateTest,
                              lat: real, lon: real, distance: Distance): (r: seq<HospitalMatch>)
    ensures |r| <= |hospitals|
    ensures test == Truthiness ==> forall j :: 0 <= j < |r| ==> r[j].latitude != 0.0 && r[j].longitude != 0.0
  {
    if hospitals == [] then []
    else
      var init, h := hospitals[..|hospitals| - 1], hospitals[|hospitals| - 1];
      if HospitalQualifies(h, test)
      then HospitalCandidates(init, reqs, test, lat, lon, distance) + [HospitalRecord(h, reqs, lat, lon, distance)]
      else HospitalCandidates(init, reqs, test, lat, lon, distance)
  }

  /**
   * The donor half of ask_blood: build `donor_list` row by row, then sort it
   * by distance. The result is the stable sort of the candidates.
   */
  method MatchDonors(users: seq<User>, bloodGroup: Option<string>, exclude: Option<nat>,
                     lat: real, lon: real, distance: Distance)
    returns (donors: seq<DonorMatch>)
    ensures donors == SortByKey(DonorCandidates(users, bloodGroup, exclude, lat, lon, distance), DonorDistance)
    ensures SortedBy(donors, DonorDistance)
    ensures multiset(donors) == multiset(DonorCandidates(users, bloodGroup, exclude, lat, lon, distance))
    ensures StableFor(DonorCandidates(users, bloodGroup, exclude, lat, lon, distance), donors, DonorDistance)
  {
    donors := [];
    for i := 0 to |users|
      invariant donors == DonorCandidates(users[..i], bloodGroup, exclude, lat, lon, distance)
    {
      var u := users[i];
      assert users[..i + 1][..i] == users[..i];
      if DonorQualifies(u, bloodGroup, exclude) {
        donors := donors + [DonorRecord(u, lat, lon, distance)];
      }
    }
    assert users[..|users|] == users;
    ghost var candidates := donors;
    donors := SortByKey(donors, DonorDistance);
    SortByKeySorted(candidates, DonorDistance);
    SortByKeyStable(candidates, DonorDistance);
  }

  /**
   * The hospital half of ask_blood (test IsNotNone) and the whole of
   * donate_blood (test Truthiness): build `hospital_list`, fetching each
   * survivor's requirements, then sort it by distance.
   */
  method MatchHospitals(hospitals: seq<Hospital>, reqs: seq<Requirement>, test: CoordinateTest,
                        lat: real, lon: real, distance: Distance)
    returns (matches: seq<HospitalMatch>)
    ensures matches == SortByKey(HospitalCandidates(hospitals, reqs, test, lat, lon, distance), HospitalDistance)
    ensures SortedBy(matches, HospitalDistance)
    ensures multiset(matches) == multiset(HospitalCandidates(hospitals, reqs, test, lat, lon, distance))
    ensures StableFor(HospitalCandidates(hospitals, reqs, test, lat, lon, distance), matches, HospitalDistance)
  {
    matches := [];
    for i := 0 to |hospitals|
      invariant matches == HospitalCandidates(hospitals[..i], reqs, test, lat, lon, distance)
    {
      var h := hospitals[i];
      assert hospitals[..i + 1][..i] == hospitals[..i];
      if HospitalQualifies(h, test) {
        matches := matches + [HospitalRecord(h, reqs, lat, lon, distance)];
      }
    }
    assert hospitals[..|hospitals|] == hospitals;
    ghost var candidates := matches;
    matches := SortByKey(matches, HospitalDistance);
    SortByKeySorted(candidates, HospitalDistance);
    SortByKeyStable(candidates, HospitalDistance);
  }

  // ---------------------------------------------------------------------
  // What the lists contain
  // ---------------------------------------------------------------------

  lemma {:induction false} DonorCandidatesSound(users: seq<User>, bloodGroup: Option<string>, exclude: Option<nat>,
                                                lat: real, lon: real, distance: Distance, d: DonorMatch)
    requires d in DonorCandidates(users, bloodGroup, exclude, lat, lon, distance)
    ensures exists i :: 0 <= i < |users| && DonorQualifies(users[i], bloodGroup, exclude)
                        && d == DonorRecord(users[i], lat, lon, distance)
  {
    var init, u := users[..|users| - 1], users[|users| - 1];
    if d in DonorCandidates(init, bloodGroup, exclude, lat, lon, distance) {
      DonorCandidatesSound(init, bloodGroup, exclude, lat, lon, distance, d);
      var i :| 0 <= i < |init| && DonorQualifies(init[i], bloodGroup, exclude)
               && d == DonorRecord(init[i], lat, lon, distance);
      assert users[i] == init[i];
    } else {
      assert users[|users| - 1] == u;
    }
  }

  lemma {:induction false} DonorCandidatesComplete(users: seq<User>, bloodGroup: Option<string>, exclude: Option<nat>,
                                                   lat: real, lon: real, distance: Distance, i: nat)
    requires i < |users| && DonorQualifies(users[i], bloodGroup, exclude)
    ensures DonorRecord(users[i], lat, lon, distance) in DonorCandidates(users, bloodGroup, exclude, lat, lon, distance)
  {
    var init := users[..|users| - 1];
    if i < |users| - 1 {
      assert init[i] == users[i];
      DonorCandidatesComplete(init, bloodGroup, exclude, lat, lon, distance, i);
    }
  }

  lemma {:induction false} DonorCandidatesOnce(users: seq<User>, bloodGroup: Option<string>, exclude: Option<nat>,
                                               lat: real, lon: real, distance: Distance, i: nat)
    requires Unique(users, UserName)
    requires i < |users| && DonorQualifies(users[i], bloodGroup, exclude)
    ensures multiset(DonorCandidates(users, bloodGroup, exclude, lat, lon, distance))[DonorRecord(users[i], lat, lon, distance)] == 1
  {
    var init, u := users[..|users| - 1], users[|users| - 1];
    var rec := DonorRecord(users[i], lat, lon, distance);
    var before := DonorCandidates(init, bloodGroup, exclude, lat, lon, distance);
    assert Unique(init, UserName);
    if i < |users| - 1 {
      assert init[i] == users[i];
      DonorCandidatesOnce(init, bloodGroup, exclude, lat, lon, distance, i);
      if DonorQualifies(u, bloodGroup, exclude) {
        assert UserName(users[i]) != UserName(users[|users| - 1]);
        assert DonorRecord(u, lat, lon, distance) != rec;
      }
    } else {
      forall d | d in before
        ensures d.username != rec.username
      {
        DonorCandidatesSound(init, bloodGroup, exclude, lat, lon, distance, d);
        var j :| 0 <= j < |init| && DonorQualifies(init[j], bloodGroup, exclude)
                 && d == DonorRecord(init[j], lat, lon, distance);
        assert init[j] == users[j];
        assert UserName(users[j]) != UserName(users[i]);
      }
      assert rec !in before;
      assert multiset(before)[rec] == 0;
    }
  }

  /**
   * Every record in the sorted donor list comes from a donor row with the
   * requested blood group, other than the logged-in donor, with both
   * coordinates stored.
   */
  lemma DonorListSound(users: seq<User>, bloodGroup: Option<string>, exclude: Option<nat>,
                       lat: real, lon: real, distance: Distance)
    ensures forall d :: d in SortByKey(DonorCandidates(users, bloodGroup, exclude, lat, lon, distance), DonorDistance) ==>
              exists i :: 0 <= i < |users| && DonorQualifies(users[i], bloodGroup, exclude)
                          && d == DonorRecord(users[i], lat, lon, distance)
  {
    var c := DonorCandidates(users, bloodGroup, exclude, lat, lon, distance);
    forall d | d in SortByKey(c, DonorDistance)
      ensures exists i :: 0 <= i < |users| && DonorQualifies(users[i], bloodGroup, exclude)
                          && d == DonorRecord(users[i], lat, lon, distance)
    {
      assert d in multiset(SortByKey(c, DonorDistance));
      DonorCandidatesSound(users, bloodGroup, exclude, lat, lon, distance, d);
    }
  }

  /**
   * When usernames are unique (as the User table guarantees), every donor
   * row that meets the conditions appears exactly once in the sorted list.
   */
  lemma DonorListExactlyOnce(users: seq<User>, bloodGroup: Option<string>, exclude: Option<nat>,
                             lat: real, lon: real, distance: Distance, i: nat)
    requires Unique(users, UserName)
    requires i < |users| && DonorQualifies(users[i], bloodGroup, exclude)
    ensures multiset(SortByKey(DonorCandidates(users, bloodGroup, exclude, lat, lon, distance), DonorDistance))
              [DonorRecord(users[i], lat, lon, distance)] == 1
  {
    DonorCandidatesOnce(users, bloodGroup, exclude, lat, lon, distance, i);
  }

  lemma {:induction false} HospitalCandidatesSound(hospitals: seq<Hospital>, reqs: seq<Requirement>, test: CoordinateTest,
                                                   lat: real, lon: real, distance: Distance, m: HospitalMatch)
    requires m in HospitalCandidates(hospitals, reqs, test, lat, lon, distance)
    ensures exists i :: 0 <= i < |hospitals| && HospitalQualifies(hospitals[i], test)
                        && m == HospitalRecord(hospitals[i], reqs, lat, lon, distance)
  {
    var init, h := hospitals[..|hospitals| - 1], hospitals[|hospitals| - 1];
    if m in HospitalCandidates(init, reqs, test, lat, lon, distance) {
      HospitalCandidatesSound(init, reqs, test, lat, lon, distance, m);
      var i :| 0 <= i < |init| && HospitalQualifies(init[i], test)
               && m == HospitalRecord(init[i], reqs, lat, lon, distance);
      assert hospitals[i] == init[i];
    } else {
      assert hospitals[|hospitals| - 1] == h;
    }
  }

  lemma {:induction false} HospitalCandidatesComplete(hospitals: seq<Hospital>, reqs: seq<Requirement>, test: CoordinateTest,
                                                      lat: real, lon: real, distance: Distance, i: nat)
    requires i < |hospitals| && HospitalQualifies(hospitals[i], test)
    ensures HospitalRecord(hospitals[i], reqs, lat, lon, distance) in HospitalCandidates(hospitals, reqs, test, lat, lon, distance)
  {
    var init := hospitals[..|hospitals| - 1];
    if i < |hospitals| - 1 {
      assert init[i] == hospitals[i];
      HospitalCandidatesComplete(init, reqs, test, lat, lon, distance, i);
    }
  }

  /**
   * Every record in a sorted hospital list comes from a verified hospital
   * whose coordinates pass the route's test, and carries exactly that
   * hospital's requirements, whatever their blood group.
   */
  lemma HospitalListSound(hospitals: seq<Hospital>, reqs: seq<Requirement>, test: CoordinateTest,
                          lat: real, lon: real, distance: Distance)
    ensures forall m :: m in SortByKey(HospitalCandidates(hospitals, reqs, test, lat, lon, distance), HospitalDistance) ==>
              exists i :: 0 <= i < |hospitals| && HospitalQualifies(hospitals[i], test)
                          && m == HospitalRecord(hospitals[i], reqs, lat, lon, distance)
                          && m.requirements == RequirementsOf(reqs, hospitals[i].id)
  {
    var c := HospitalCandidates(hospitals, reqs, test, lat, lon, distance);
    forall m | m in SortByKey(c, HospitalDistance)
      ensures exists i :: 0 <= i < |hospitals| && HospitalQualifies(hospitals[i], test)
                          && m == HospitalRecord(hospitals[i], reqs, lat, lon, distance)
                          && m.requirements == RequirementsOf(reqs, hospitals[i].id)
    {
      assert m in multiset(SortByKey(c, HospitalDistance));
      HospitalCandidatesSound(hospitals, reqs, test, lat, lon, distance, m);
    }
  }

  /** Every verified hospital whose coordinates pass the route's test is in the sorted list. */
  lemma HospitalListComplete(hospitals: seq<Hospital>, reqs: seq<Requirement>, test: CoordinateTest,
                             lat: real, lon: real, distance: Distance, i: nat)
    requires i < |hospitals| && HospitalQualifies(hospitals[i], test)
    ensures HospitalRecord(hospitals[i], reqs, lat, lon, distance)
              in SortByKey(HospitalCandidates(hospitals, reqs, test, lat, lon, distance), HospitalDistance)
  {
    var c := HospitalCandidates(hospitals, reqs, test, lat, lon, distance);
    HospitalCandidatesComplete(hospitals, reqs, test, lat, lon, distance, i);
    assert HospitalRecord(hospitals[i], reqs, lat, lon, distance) in multiset(SortByKey(c, HospitalDistance));
  }

  /**
   * A verified hospital with a stored coordinate of 0.0 is listed by
   * ask_blood (which tests `is not None`) and left out by donate_blood
   * (which tests truthiness), for the same tables and requester position.
   */
  lemma ZeroCoordinateHospital(hospitals: seq<Hospital>, reqs: seq<Requirement>,
                               lat: real, lon: real, distance: Distance, i: nat)
    requires i < |hospitals| && hospitals[i].verified
    requires hospitals[i].latitude.Some? && hospitals[i].longitude.Some?
    requires hospitals[i].latitude.value == 0.0 || hospitals[i].longitude.value == 0.0
    ensures HospitalRecord(hospitals[i], reqs, lat, lon, distance)
              in SortByKey(HospitalCandidates(hospitals, reqs, IsNotNone, lat, lon, distance), HospitalDistance)
    ensures HospitalRecord(hospitals[i], reqs, lat, lon, distance)
              !in SortByKey(HospitalCandidates(hospitals, reqs, Truthiness, lat, lon, distance), HospitalDistance)
  {
    HospitalListComplete(hospitals, reqs, IsNotNone, lat, lon, distance, i);
    HospitalListSound(hospitals, reqs, Truthiness, lat, lon, distance);
  }

  /** Every hospital donate_blood lists, ask_blood lists too. */
  lemma DonateListWithinAskList(hospitals: seq<Hospital>, reqs: seq<Requirement>,
                                lat: real, lon: real, distance: Distance)
    ensures forall m :: m in SortByKey(HospitalCandidates(hospitals, reqs, Truthiness, lat, lon, distance), HospitalDistance) ==>
              m in SortByKey(HospitalCandidates(hospitals, reqs, IsNotNone, lat, lon, distance), HospitalDistance)
  {
    HospitalListSound(hospitals, reqs, Truthiness, lat, lon, distance);
    forall m | m in SortByKey(HospitalCandidates(hospitals, reqs, Truthiness, lat, lon, distance), HospitalDistance)
      ensures m in SortByKey(HospitalCandidates(hospitals, reqs, IsNotNone, lat, lon, distance), HospitalDistance)
    {
      var i :| 0 <= i < |hospitals| && HospitalQualifies(hospitals[i], Truthiness)
               && m == HospitalRecord(hospitals[i], reqs, lat, lon, distance)
               && m.requirements == RequirementsOf(reqs, hospitals[i].id);
      HospitalListComplete(hospitals, reqs, IsNotNone, lat, lon, distance, i);
    }
  }
}
