# Blood donation matcher: a Dafny model

This project models the logic of a small Flask application that puts blood
donors in touch with hospitals. The application keeps three tables (donor
users, hospitals, blood requirements) and one session per client.

Two parts of it have behaviour worth stating:

* **Proximity match lists.** `ask_blood` builds a list of donors with the
  requested blood group, leaving out the logged-in donor, and a list of
  verified hospitals, each carrying all of its blood requirements.
  `donate_blood` builds the hospital list alone. Every list keeps only rows
  with stored coordinates, gives each row its distance from the requester,
  and is sorted by that distance with Python's stable sort.
* **Accounts, session and requirements as a state machine.** These are donor
  and hospital signup and login, the hospital dashboard, adding and removing
  requirements, and logout. Each is a guarded update of one table or of the
  session.

Files and modules:

* `tables.dfy` (module `Tables`): the row types, and the queries
  `filter_by(...).first()` and `query.get` as `FindFirst`. It also holds the
  requirement query `RequirementsOf`, SQLite's choice of a new row id
  (`NextId`, one more than the largest id), row deletion, and the schema's
  unique and primary-key constraints.
* `sorting.dfy` (module `Sorting`): `SortByKey` is a stable insertion sort by
  a real key. It is proved sorted, a permutation and stable. The lemma
  `SortedStableUnique` shows that only one sequence is both sorted and
  stable, so `SortByKey` gives exactly what Python's `list.sort(key=...)`
  gives.
* `matching.dfy` (module `Matching`): the loops that build `donor_list` and
  `hospital_list` (methods `MatchDonors` and `MatchHospitals`), the candidate
  lists they sort (`DonorCandidates`, `HospitalCandidates`), and lemmas about
  which rows the sorted lists contain.
* `handlers.dfy` (module `Handlers`): class `App` holds the tables and the
  session, with one method per route. `Valid()` states the schema
  constraints. It also states that a session with the hospital role has a
  `hospital_id`, and that this id names a stored hospital. Every method
  preserves `Valid()`.

Parameters stand in for the parts that are not modelled:

* `distance` stands for `round(haversine(...), 2)`.
* `toFloat` stands for Python's `float` on a form string.
* `check` stands for `check_password_hash`.
* Signup receives the password hash that `generate_password_hash` computed.

The two routes test hospital coordinates differently. `ask_blood` tests
`is not None` (app.py:294). `donate_blood` tests truthiness (app.py:342),
which is false for 0.0. The lemma `ZeroCoordinateHospital` proves that a
verified hospital with a stored 0.0 coordinate is in the `ask_blood` list and
missing from the `donate_blood` list. The model keeps this behaviour as it is
written.

Some behaviour that a reader might not expect is kept as the code has it:

* Hospitals are listed whether or not they have any requirements, and their
  requirement lists are not filtered by blood group.
* `donate_blood` does not check that the requester's coordinates were sent.
  A missing field makes Flask answer with an error, which is not modelled.
  The model takes the parsed coordinates as inputs.
* A donor may store one coordinate without the other. Such a donor is never
  listed.

## Model

| member | source | states |
|---|---|---|
| `Tables.FindFirst` | app.py:86-91 | `filter_by(col=v).first()` finds the first row whose column holds `v`, and None exactly when no row holds it |
| `Tables.NextId` | app.py:19-20 | a new row id is positive and larger than every id in the table |
| `Tables.DeleteRow` | app.py:419-420 | deleting a row removes exactly that row (multiset minus one) and keeps the others in order |
| `Tables.RequirementsOf` | app.py:298-300 | the requirements of a hospital are exactly the rows whose `hospital_id` is that hospital's id, with their multiplicities; no blood-group filter |
| `Tables.UsersValid` | app.py:19-24 | the User table's constraints: the integer primary key `id`, and `unique=True` on `username`, `email` and `phone` |
| `Tables.HospitalsValid` | app.py:33-38 | the Hospital table's constraints: the integer primary key `id` and a unique `email`; `phone` is not unique (app.py:38) |
| `Tables.RequirementsValid` | app.py:372-373 | the BloodRequirement table's constraint: the integer primary key `id` |
| `Tables.IdsAscendingUnique` | app.py:298-300 | two lists with strictly ascending ids and the same elements are equal, so with `RequirementsOf`'s multiset and `RequirementsOfAscending` a hospital's requirement list is fixed |
| `Tables.RequirementsOfAscending` | app.py:298-300 | with ascending primary keys, a hospital's requirements come in ascending id order, which is table order |
| `Tables.Given` | app.py:260 | a form string counts as given when it was sent and is not empty, the truthiness test of `if not user_lat` (and of `if latitude` at app.py:99) |
| `Tables.StoredCoordinate` | app.py:99-100 | an absent or empty latitude/longitude field is stored as null, anything else as its float value |
| `Sorting.SortByKey` | app.py:284 | the sorted list is a permutation of the list before sorting |
| `Sorting.SortByKeySorted` | app.py:284 | the sorted list is non-decreasing by the key |
| `Sorting.SortByKeyStable` | app.py:312 | elements with equal keys keep their original relative order (Python's sort is stable) |
| `Sorting.SortedStableUnique` | app.py:359 | two lists that are sorted and list each key's elements in the same order are equal, so any stable sort gives `SortByKey`'s result |
| `Matching.HasCoordinate` | app.py:294 | a stored coordinate is usable under `IsNotNone` when it is not null (app.py:276, 294), and under `Truthiness` when it is not null and not 0.0 (app.py:342) |
| `Matching.DonorQualifies` | app.py:268-276 | a donor row is kept when its blood group equals the requested one (a missing field matches no row), its id differs from the excluded id when there is one, and both coordinates are stored |
| `Matching.DonorRecord` | app.py:278-283 | the donor record holds the row's username, blood group and phone, and the distance from the requester to the row's coordinates |
| `Matching.DonorCandidates` | app.py:273-283 | the unsorted donor list has one record per kept row, in table order; every record carries the requested blood group, and the list is never longer than the table |
| `Matching.HospitalQualifies` | app.py:290-294 | a hospital row is kept when it is verified and both coordinates pass the route's test (`is not None` here, truthiness at app.py:338-342) |
| `Matching.HospitalRecord` | app.py:302-310 | the hospital record holds the row's name, city, phone and coordinates, the distance from the requester, and all requirements whose `hospital_id` is the row's id |
| `Matching.HospitalCandidates` | app.py:291-310 | the unsorted hospital list has one record per kept row, in table order, for either route (donate_blood's loop is app.py:339-357); under the truthiness test no record has a 0.0 coordinate, and the list is never longer than the table |
| `Matching.MatchDonors` | app.py:268-284 | the donor loop plus sort produces the stable sort of the candidate donors: sorted by distance, a permutation of the candidates, ties in table order |
| `Matching.MatchHospitals` | app.py:290-312 | the hospital loop plus sort (for `IsNotNone` or, as at app.py:338-359, `Truthiness`) produces the stable sort of the candidate hospitals |
| `Matching.DonorCandidatesSound` | app.py:268-283 | every record in the unsorted donor list comes from a donor row that passes the query and the coordinate test |
| `Matching.DonorCandidatesComplete` | app.py:275-283 | every qualifying donor row yields a record in the unsorted donor list |
| `Matching.DonorCandidatesOnce` | app.py:275-283 | with unique usernames, each qualifying donor row yields exactly one record |
| `Matching.DonorListSound` | app.py:268-283 | every donor listed by ask_blood has the requested blood group, is not the session's `user_id`, and has both coordinates |
| `Matching.DonorListExactlyOnce` | app.py:268-284 | with unique usernames (guaranteed by the User table), every donor meeting those conditions appears exactly once in the sorted list |
| `Matching.HospitalCandidatesSound` | app.py:290-310 | every record in the unsorted hospital list comes from a verified hospital whose coordinates pass the test |
| `Matching.HospitalCandidatesComplete` | app.py:293-310 | every verified hospital whose coordinates pass the test yields a record |
| `Matching.HospitalListSound` | app.py:290-312 | every listed hospital is verified, has coordinates passing the route's test, and carries exactly its own requirements |
| `Matching.HospitalListComplete` | app.py:290-312 | every verified hospital whose coordinates pass the route's test is in the sorted list |
| `Matching.ZeroCoordinateHospital` | app.py:342 | a verified hospital with a 0.0 coordinate is listed by ask_blood (`is not None`, app.py:294) but not by donate_blood (truthiness) |
| `Matching.DonateListWithinAskList` | app.py:338-342 | every hospital donate_blood lists is also listed by ask_blood for the same tables and position |
| `Handlers.ExcludedDonor` | app.py:270-271 | the requester is left out of the donor list only when the session's `user_id` is truthy: present and not 0 |
| `Handlers.App.constructor` | app.py:436-438 | the application starts over tables meeting the schema constraints, with an empty session |
| `Handlers.App.SignupDonor` | app.py:86-106 | duplicate email, then username, then phone are reported in that order, and leave the table and the session unchanged; otherwise one user is appended with a fresh id and empty coordinates stored as null, and `user_id` is set to it; email, username and phone stay unique |
| `Handlers.App.SignupHospital` | app.py:129-150 | only a duplicate email is rejected; otherwise one verified hospital is appended, and `hospital_id` and the hospital role are set without touching `user_id` |
| `Handlers.App.LoginDonor` | app.py:180-188 | an unknown email gives "User not registered!"; a correct password sets only `user_id`; a wrong one changes nothing |
| `Handlers.App.LoginHospital` | app.py:201-215 | an unknown email gives "Hospital not registered!"; an unverified hospital is refused whatever the password; on success the session holds exactly `hospital_id` and role "hospital" |
| `Handlers.App.HospitalDashboard` | app.py:225-237 | without the hospital role the client is redirected home; with it the page shows the session's hospital and exactly its requirements |
| `Handlers.App.AddBloodRequirement` | app.py:385-403 | without `hospital_id` nothing changes; otherwise one requirement tagged with the session's hospital is appended |
| `Handlers.App.RemoveBloodRequirement` | app.py:412-422 | the requirement is deleted only when the role is "hospital", the row exists and its `hospital_id` is the session's; otherwise the table is unchanged |
| `Handlers.App.Logout` | app.py:430-431 | only `user_id` is removed from the session; `hospital_id` and `role` are kept |
| `Handlers.App.AskBlood` | app.py:256-322 | a missing or empty coordinate gives the 400 "Location not received" error and no lists; otherwise both lists are the sorted candidate lists, sorted by distance |
| `Handlers.App.DonateBlood` | app.py:335-364 | the answer is the sorted list of verified hospitals with truthy coordinates; no listed hospital has a 0.0 coordinate |

## Left out

- Haversine distance and `round(distance, 2)` (app.py:51-58, app.py:281): floating-point trigonometry. They are replaced by the `distance` parameter, and keys are mathematical reals, so NaN and float rounding are not modelled.
- Python's Timsort: only its result is modelled, by the stable insertion sort `SortByKey`. `SortedStableUnique` shows that this result is the only one a stable sort can give.
- Password hashing (`generate_password_hash`, `check_password_hash`): foreign cryptography. The hash is an input and the check is a predicate parameter.
- `float(...)` on form strings, and the `ValueError` it raises on malformed input: `toFloat` stands for the conversion.
- Missing required form fields (`request.form[...]` raising a 400 error), and GET requests that only render templates.
- The `home`, `login`, `signup` and `profile` routes: they only render pages.
- Query order: the model assumes that every query without ORDER BY returns its rows in row-id order. SQL leaves that order undefined. SQLite gives row-id order here because these queries are full table scans: there is no index on `blood_group`, `verified` or `hospital_id`. The tie order stated for `MatchDonors`, `MatchHospitals` and `SortByKeyStable` (records at equal distance in table order), and the order of each hospital's requirements, hold only under this assumption.
- The SQL filter and the Python coordinate test are checked in one pass over the table. Under the query-order assumption above, the result is the same as filtering first and testing afterwards.
- Forged or stale sessions: `App.Valid()` requires that a session with the hospital role has a `hospital_id`, and that this id names a stored hospital. The application never writes any other session against its own database, because hospitals are never deleted and the id and role are always set together. A forged cookie (the secret key is fixed in the source, app.py:7) or a session left over after the database file is replaced breaks this. The model then does not capture the resulting crashes: a `KeyError` on `session["hospital_id"]` (app.py:228, app.py:418), and `hospital.id` on None (app.py:230).
- `created_at` timestamps, and the conversion of the `units` string to an integer: units are taken as an integer.
- SQLite row ids: `NextId` is one more than the largest id. SQLite's fallback to a random id once the largest id reaches 2^63-1 is not modelled, and ids are unbounded.
- Concurrency and several clients: the model has one session. Tables are consistent snapshots.
- Flask and SQLAlchemy plumbing: routing, templates, URL building, `commit`, `create_all`, the database URI and `secret_key`.
