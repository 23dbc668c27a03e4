/** The fixed catalogue loaded on first startup, and the seed-if-empty step. */
module Seed {
  import opened Store

  /** One entry of the seed catalogue: an activity's name, its fields and the
      emails of its initial participants. */
  datatype SeedEntry = SeedEntry(
    name: string,
    description: string,
    schedule: string,
    maxParticipants: int,
    participants: seq<string>)

  /** The seed catalogue, in its declared order. */
  const SeedActivities: seq<SeedEntry> := [
    SeedEntry("Chess Club",
      "Learn strategies and compete in chess tournaments",
      "Fridays, 3:30 PM - 5:00 PM", 12,
      ["michael@mergington.edu", "daniel@mergington.edu"]),
    SeedEntry("Programming Class",
      "Learn programming fundamentals and build software projects",
      "Tuesdays and Thursdays, 3:30 PM - 4:30 PM", 20,
      ["emma@mergington.edu", "sophia@mergington.edu"]),
    SeedEntry("Gym Class",
      "Physical education and sports activities",
      "Mondays, Wednesdays, Fridays, 2:00 PM - 3:00 PM", 30,
      ["john@mergington.edu", "olivia@mergington.edu"]),
    SeedEntry("Soccer Team",
      "Join the school soccer team and compete in matches",
      "Tuesdays and Thursdays, 4:00 PM - 5:30 PM", 22,
      ["liam@mergington.edu", "noah@mergington.edu"]),
    SeedEntry("Basketball Team",
      "Practice and play basketball with the school team",
      "Wednesdays and Fridays, 3:30 PM - 5:00 PM", 15,
      ["ava@mergington.edu", "mia@mergington.edu"]),
    SeedEntry("Art Club",
      "Explore your creativity through painting and drawing",
      "Thursdays, 3:30 PM - 5:00 PM", 15,
      ["amelia@mergington.edu", "harper@mergington.edu"]),
    SeedEntry("Drama Club",
      "Act, direct, and produce plays and performances",
      "Mondays and Wednesdays, 4:00 PM - 5:30 PM", 20,
      ["ella@mergington.edu", "scarlett@mergington.edu"]),
    SeedEntry("Math Club",
      "Solve challenging problems and participate in math competitions",
      "Tuesdays, 3:30 PM - 4:30 PM", 10,
      ["james@mergington.edu", "benjamin@mergington.edu"]),
    SeedEntry("Debate Team",
      "Develop public speaking and argumentation skills",
      "Fridays, 4:00 PM - 5:30 PM", 12,
      ["charlotte@mergington.edu", "henry@mergington.edu"])
  ]

  /** One participant row per seeded email, in order. */
  function Rows(emails: seq<string>): (r: seq<Participant>)
    ensures Emails(r) == emails
  {
    seq(|emails|, i requires 0 <= i < |emails| => Participant(emails[i]))
  }

  /** The activity row an entry inserts, owning its initial participants. */
  function ToActivity(e: SeedEntry): Activity
  {
    Activity(e.description, e.schedule, e.maxParticipants, Rows(e.participants))
  }

  function NameSet(es: seq<SeedEntry>): set<string>
  {
    set i | 0 <= i < |es| :: es[i].name
  }

  predicate DistinctNames(es: seq<SeedEntry>)
  {
    forall i, j :: 0 <= i < j < |es| ==> es[i].name != es[j].name
  }

  /** Insert the entries, in order, into an empty table, each as an activity with
      its participant rows. Names are the table's unique key, so they are distinct. */
  function Load(es: seq<SeedEntry>): (r: State)
    requires DistinctNames(es)
    ensures r.Keys == NameSet(es)
    ensures forall i :: 0 <= i < |es| ==> r[es[i].name] == ToActivity(es[i])
  {
    if |es| == 0 then map[]
    else
      var init := es[..|es| - 1];
      var e := es[|es| - 1];
      assert NameSet(es) == NameSet(init) + {e.name} by {
        forall n | n in NameSet(es) ensures n in NameSet(init) + {e.name} {
          var i :| 0 <= i < |es| && es[i].name == n;
          if i < |es| - 1 { assert init[i] == es[i]; }
        }
      }
      Load(init)[e.name := ToActivity(e)]
  }

  /** Startup: when the activities table is empty, load the catalogue; otherwise
      leave the store as it is. */
  function Startup(s: State): (r: State)
    ensures |s| != 0 ==> r == s
    ensures |s| == 0 ==> r.Keys == NameSet(SeedActivities)
    ensures |s| == 0 ==>
              forall i :: 0 <= i < |SeedActivities| ==>
                r[SeedActivities[i].name] == ToActivity(SeedActivities[i])
  {
    if |s| == 0 then
      SeedNamesDistinct();
      Load(SeedActivities)
    else s
  }

  lemma SeedNamesDistinct()
    ensures DistinctNames(SeedActivities)
  {
  }

  /** Every catalogue entry is a valid activity: two distinct emails and a cap of
      at least two. */
  lemma SeedEntriesValid()
    ensures forall i :: 0 <= i < |SeedActivities| ==> ActivityValid(ToActivity(SeedActivities[i]))
  {
  }

  /** The seeded store satisfies the store invariant, and startup keeps any valid
      store valid. */
  lemma StartupPreservesValid(s: State)
    requires Valid(s)
    ensures Valid(Startup(s))
  {
    if |s| == 0 {
      var r := Startup(s);
      SeedEntriesValid();
      forall n | n in r ensures ActivityValid(r[n]) {
        var i :| 0 <= i < |SeedActivities| && SeedActivities[i].name == n;
      }
    }
  }

  /** Seeding twice is the same as seeding once. */
  lemma StartupIdempotent(s: State)
    ensures Startup(Startup(s)) == Startup(s)
  {
  }

  /** After a first startup, "Chess Club" holds its two seeded participants and a
      cap of 12, and a restart does not add to them. */
  lemma ChessClubSeeded()
    ensures "Chess Club" in Startup(map[])
    ensures Startup(map[])["Chess Club"].maxParticipants == 12
    ensures Emails(Startup(map[])["Chess Club"].participants)
            == ["michael@mergington.edu", "daniel@mergington.edu"]
    ensures Startup(Startup(map[]))["Chess Club"] == Startup(map[])["Chess Club"]
  {
    assert SeedActivities[0].name == "Chess Club";
    StartupIdempotent(map[]);
  }
}
