# Mergington High School activity registry — a Dafny model

The Mergington High School API lets students list extracurricular activities and
sign up for or unregister from them. Its logic lives in `src/app.py`: a seed
catalogue loaded on first startup, a listing of all activities, and two guarded
transitions, signup and unregister. This project models that logic as pure
functions over an immutable store and proves the guards, effects and invariants.

- `results.dfy` (`Results`): `Option` and `Result` outcome types.
- `store.dfy` (`Store`): the entities. `Participant` is a row of the participants
  table (its owning activity is the one whose list holds it). `Activity` is an
  activity row with the participant rows it owns. `State` is a
  `map<string, Activity>` keyed by the unique activity name. `Error` holds the
  four client errors: `NotFound`, `AlreadySignedUp`, `AtCapacity` and
  `NotSignedUp`. The module also defines the store invariant `Valid`: no activity
  holds the same email twice, and a capped activity stays within its cap.
- `seed.dfy` (`Seed`): the catalogue of nine activities, its loader and the
  seed-if-empty startup step. The constant `Seed.SeedActivities` holds the
  catalogue of src/app.py:26-81, in its declared order. Each entry carries the
  same name, description, schedule, cap and participant emails as the source.
- `registration.dfy` (`Registration`): signup and unregister, returning
  `Result<State, Error>`.
- `listing.dfy` (`Listing`): the read-only listing.
- `server.dfy` (`Server`): the service as a sequential state machine of startups
  and requests. A request that fails leaves the store unchanged, because its
  transaction is closed without a commit.

Modelling choices:
- `max_participants` is an `int` read with the source's truthiness. 0 means
  unlimited and any other value is a cap. A missing (NULL) value is falsy in the
  source, so it is modelled as 0.
- Participant rows are a sequence, and signup appends the new row. The source's
  row order comes from the ORM relationship, which this model does not include.
  So the contracts state membership, counts and multisets of emails rather than
  positions.
- Unregister deletes the first row that carries the email, as the source's scan
  with `break` does.
- The ORM session, `flush`, `commit` and `close` calls become "the handler
  returns the new store". A raised error becomes an `Err` result, and the caller
  keeps the old store.

## Model

| member | source | states |
|---|---|---|
| `Registration.SignUp` | src/app.py:134-157 | Guards checked in order: unknown activity gives NotFound, an email already registered gives AlreadySignedUp (even when the activity is full), and at-capacity happens exactly when the cap is nonzero and the count has reached it. A cap of 0 never gives at-capacity. On success the named activity gains exactly one occurrence of the email (multiset of emails grows by that email, count by one), and every other activity plus that activity's description, schedule and cap are unchanged |
| `Registration.FirstIndexOf` | src/app.py:171-175 | The scan finds no index exactly when no row carries the email; otherwise the index is in range, its row carries the email, and no earlier row does |
| `Registration.Unregister` | src/app.py:162-185 | Unknown activity gives NotFound, an email not registered gives NotSignedUp, and success happens exactly when the activity exists and the email is registered. On success one occurrence of the email leaves that activity's email multiset (count drops by one) and nothing else in the store changes |
| `Registration.SignUpPreservesValid` | src/app.py:143-157 | A successful signup keeps the store invariant: no duplicate emails in any activity, and no capped activity above its cap |
| `Registration.UnregisterPreservesValid` | src/app.py:171-185 | A successful unregister on a valid store keeps the invariant, and afterwards the email is no longer registered for that activity |
| `Registration.SignUpThenUnregister` | src/app.py:154-185 | Unregistering the email that a successful signup just added restores exactly the store the signup started from |
| `Registration.UnregisterThenSignUp` | src/app.py:143-185 | On a valid store, signing up again an email that was just unregistered succeeds and restores the activity's multiset of emails |
| `Registration.SignUpTwice` | src/app.py:143-148 | After a successful signup, the same signup again reports AlreadySignedUp |
| `Seed.Load` | src/app.py:94-105 | Loading catalogue entries with distinct names gives exactly one activity per entry name, each carrying that entry's description, schedule, cap and participant emails |
| `Seed.Startup` | src/app.py:84-108 | An empty store becomes exactly the seed catalogue (its nine names, each entry's fields and participants), and a non-empty store is left untouched |
| `Seed.StartupPreservesValid` | src/app.py:26-106 | The seeded catalogue satisfies the store invariant, and startup keeps any valid store valid |
| `Seed.StartupIdempotent` | src/app.py:92-93 | Seeding twice gives the same store as seeding once |
| `Seed.ChessClubSeeded` | src/app.py:27-32 | After first startup "Chess Club" has cap 12 and exactly the two seeded participant emails, and a restart leaves it as it was |
| `Listing.GetActivities` | src/app.py:116-129 | The listing has one entry per activity, with that activity's description, schedule and cap, and one email per participant row: the listed emails are, counted with multiplicity, exactly the emails of the activity's rows. An email appears in an activity's entry exactly when it is registered there |
| `Listing.ListingAfterSignUp` | src/app.py:120-128 | After a successful signup the listing shows the email under that activity (where it was not shown before), and every other entry is unchanged |
| `Listing.ListingAfterUnregister` | src/app.py:120-128 | On a valid store, after a successful unregister the listing no longer shows the email under that activity (where it was shown before), and every other entry is unchanged |
| `Server.Handle` | src/app.py:84-187 | A signup or unregister request changes the store exactly when its handler succeeds; a failed request leaves it unchanged. A restart changes the store exactly when the store was empty |
| `Server.RunPreservesValid` | src/app.py:134-187 | Any sequence of startups and requests handled in order from a valid store ends in a valid store |
| `Server.ReachableStatesValid` | src/app.py:26-187 | Every store reachable from an empty database has no duplicate emails per activity and no capped activity above its cap |
| `Server.ChessClubSignUpScenario` | src/app.py:134-157 | On a freshly seeded store, signing "new@mergington.edu" up for "Chess Club" succeeds, and the listing then shows that email under "Chess Club" |

## Left out

- FastAPI routing, the `/static` mount and the root redirect (src/app.py:17-23, 111-113) are web-framework plumbing with no logic.
- The database session, `flush`, `commit`, `close` and `create_all` are modelled only by their net effect: a new store is returned, or on error the old one is kept.
- `src/db.py` and `src/models.py` are not part of this model. Only the columns and the relationship that `src/app.py` uses are modelled.
- `src/app.py` does not catch a uniqueness violation at commit time, so nothing remaps it to AlreadySignedUp. Commit-time failures of any kind belong to the database, which is not modelled.
- Concurrent requests are left out: the check-then-insert race depends on database isolation and constraints. Requests are handled one at a time.
- HTTP status codes, the detail strings and the confirmation messages are replaced by the `Error` datatype and the `Ok` result.
- The `.get` defaults in the seed loop (`max_participants` 0, no participants) are not modelled, because every catalogue entry gives both fields.
- Participant row order is not modelled beyond "a new row goes last". Properties are stated on membership, counts and email multisets.
