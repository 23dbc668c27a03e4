/** The service as a sequential state machine: the process starts, then handles
    requests one at a time. A request that fails leaves the store as it was. */
module Server {
  import opened Results
  import opened Store
  import opened Seed
  import opened Registration
  import opened Listing

  /** The events the store sees: a (re)start of the process, or a mutating request. */
  datatype Event =
    | Restart
    | SignUpRequest(name: string, email: string)
    | UnregisterRequest(name: string, email: string)

  /** The store after a handler's outcome: the new store when it succeeded, the old
      one when it raised an error. */
  function Commit(s: State, r: Result<State, Error>): State
  {
    if r.Ok? then r.value else s
  }

  /** One event. A request changes the store exactly when its handler succeeds, and
      a restart changes it exactly when the store was empty. */
  function Handle(s: State, ev: Event): (r: State)
    ensures ev.Restart? ==> (r != s <==> |s| == 0)
    ensures ev.SignUpRequest? ==> (r != s <==> SignUp(s, ev.name, ev.email).Ok?)
    ensures ev.UnregisterRequest? ==> (r != s <==> Unregister(s, ev.name, ev.email).Ok?)
  {
    match ev
    case Restart =>
      assert |s| == 0 ==> SeedActivities[0].name in Startup(s);
      Startup(s)
    case SignUpRequest(name, email) =>
      var res := SignUp(s, name, email);
      assert res.Ok? ==> res.value[name] != s[name];
      Commit(s, res)
    case UnregisterRequest(name, email) =>
      var res := Unregister(s, name, email);
      assert res.Ok? ==> res.value[name] != s[name];
      Commit(s, res)
  }

  /** Handle the events in order. */
  function Run(s: State, evs: seq<Event>): State
    decreases |evs|
  {
    if |evs| == 0 then s else Run(Handle(s, evs[0]), evs[1..])
  }

  /** Every event keeps the store invariant; an empty store also counts, since the
      next startup seeds it. */
  lemma HandlePreservesValid(s: State, ev: Event)
    requires Valid(s)
    ensures Valid(Handle(s, ev))
  {
    match ev
    case Restart =>
      StartupPreservesValid(s);
    case SignUpRequest(name, email) =>
      if SignUp(s, name, email).Ok? { SignUpPreservesValid(s, name, email); }
    case UnregisterRequest(name, email) =>
      if Unregister(s, name, email).Ok? { UnregisterPreservesValid(s, name, email); }
  }

  lemma {:induction false} RunPreservesValid(s: State, evs: seq<Event>)
    requires Valid(s)
    ensures Valid(Run(s, evs))
    decreases |evs|
  {
    if |evs| != 0 {
      HandlePreservesValid(s, evs[0]);
      RunPreservesValid(Handle(s, evs[0]), evs[1..]);
    }
  }

  /** Every state reachable from an empty database, through any sequence of
      startups, signups and unregisters, has no duplicate emails in any activity
      and no capped activity over its cap. */
  lemma ReachableStatesValid(evs: seq<Event>)
    ensures Valid(Run(map[], evs))
  {
    var empty: State := map[];
    RunPreservesValid(empty, evs);
  }

  /** On a freshly seeded store, signing "new@mergington.edu" up for "Chess Club"
      (two participants, cap 12) succeeds and the listing then shows the email
      under "Chess Club". */
  lemma ChessClubSignUpScenario()
    ensures SignUp(Startup(map[]), "Chess Club", "new@mergington.edu").Ok?
    ensures "new@mergington.edu" in
              GetActivities(SignUp(Startup(map[]), "Chess Club", "new@mergington.edu").value)["Chess Club"].participants
  {
    ChessClubSeeded();
    ChessClubOpen(Startup(map[]));
  }

  lemma ChessClubOpen(s: State)
    requires "Chess Club" in s
    requires s["Chess Club"].maxParticipants == 12
    requires Emails(s["Chess Club"].participants) == ["michael@mergington.edu", "daniel@mergington.edu"]
    ensures SignUp(s, "Chess Club", "new@mergington.edu").Ok?
    ensures "new@mergington.edu" in GetActivities(SignUp(s, "Chess Club", "new@mergington.edu").value)["Chess Club"].participants
  {
    var ps := s["Chess Club"].participants;
    assert ps[0].email == Emails(ps)[0] == "michael@mergington.edu";
    assert ps[1].email == Emails(ps)[1] == "daniel@mergington.edu";
    assert ps[0].email[0] != "new@mergington.edu"[0];
    assert ps[1].email[0] != "new@mergington.edu"[0];
    ListingAfterSignUp(s, "Chess Club", "new@mergington.edu");
  }
}
