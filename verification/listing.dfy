/** The read-only listing of every activity with its participants' emails. */
module Listing {
  import opened Store
  import opened Registration

  /** What the listing reports for one activity. */
  datatype ActivityView = ActivityView(
    description: string,
    schedule: string,
    maxParticipants: int,
    participants: seq<string>)

  function View(a: Activity): ActivityView
  {
    ActivityView(a.description, a.schedule, a.maxParticipants, Emails(a.participants))
  }

  /** One entry per activity, keyed by name, carrying the activity's fields and
      one email per participant row; an email is listed exactly when it is
      registered for that activity. */
  function GetActivities(s: State): (r: map<string, ActivityView>)
    ensures r.Keys == s.Keys
    ensures forall n :: n in s ==>
              && r[n].description == s[n].description
              && r[n].schedule == s[n].schedule
              && r[n].maxParticipants == s[n].maxParticipants
              && |r[n].participants| == |s[n].participants|
    ensures forall n, e :: n in s ==> (e in r[n].participants <==> IsRegistered(s[n], e))
    ensures forall n :: n in s ==> multiset(r[n].participants) == multiset(Emails(s[n].participants))
  {
    var r := map n | n in s :: View(s[n]);
    assert forall n, e :: n in s ==> (e in r[n].participants <==> IsRegistered(s[n], e)) by {
      forall n, e | n in s
        ensures e in r[n].participants <==> IsRegistered(s[n], e)
      {
        if e in r[n].participants {
          var i :| 0 <= i < |r[n].participants| && r[n].participants[i] == e;
          assert s[n].participants[i].email == e;
        }
        if IsRegistered(s[n], e) {
          var i :| 0 <= i < |s[n].participants| && s[n].participants[i].email == e;
          assert r[n].participants[i] == e;
        }
      }
    }
    r
  }

  /** After a successful signup the listing shows the email under that activity,
      and every other activity's entry is as before. */
  lemma ListingAfterSignUp(s: State, name: string, email: string)
    requires SignUp(s, name, email).Ok?
    ensures email in GetActivities(SignUp(s, name, email).value)[name].participants
    ensures !(email in GetActivities(s)[name].participants)
    ensures forall m :: m in s && m != name ==>
              GetActivities(SignUp(s, name, email).value)[m] == GetActivities(s)[m]
  {
    var t := SignUp(s, name, email).value;
    var ps := s[name].participants;
    assert t[name].participants[|ps|].email == email;
  }

  /** In a valid store, after a successful unregister the listing no longer shows
      the email under that activity, and every other activity's entry is as before. */
  lemma ListingAfterUnregister(s: State, name: string, email: string)
    requires Valid(s)
    requires Unregister(s, name, email).Ok?
    ensures email in GetActivities(s)[name].participants
    ensures !(email in GetActivities(Unregister(s, name, email).value)[name].participants)
    ensures forall m :: m in s && m != name ==>
              GetActivities(Unregister(s, name, email).value)[m] == GetActivities(s)[m]
  {
    UnregisterPreservesValid(s, name, email);
  }
}
