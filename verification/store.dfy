/** The persisted store of the activity registry: activities keyed by their unique
    name, each owning its participant rows. */
module Store {

  /** A row of the participants table. The activity it belongs to is the one whose
      list holds it, so the foreign key is implicit. */
  datatype Participant = Participant(email: string)

  /** A row of the activities table together with the participant rows it owns.
      `maxParticipants` follows the source's truthiness: 0 (or a missing value) means
      no capacity limit, any other value is a cap. */
  datatype Activity = Activity(
    description: string,
    schedule: string,
    maxParticipants: int,
    participants: seq<Participant>)

  /** The whole store: activity name (the unique key) to activity. */
  type State = map<string, Activity>

  /** The client errors the handlers raise. */
  datatype Error = NotFound | AlreadySignedUp | AtCapacity | NotSignedUp

  /** The emails of a list of participant rows, in order. */
  function Emails(ps: seq<Participant>): seq<string>
  {
    seq(|ps|, i requires 0 <= i < |ps| => ps[i].email)
  }

  /** Some participant row of `a` carries `email`. */
  predicate IsRegistered(a: Activity, email: string)
  {
    exists i :: 0 <= i < |a.participants| && a.participants[i].email == email
  }

  /** The activity has a cap and its participant count has reached it. */
  predicate IsFull(a: Activity)
  {
    a.maxParticipants != 0 && |a.participants| >= a.maxParticipants
  }

  /** No two participant rows of one activity carry the same email. */
  predicate NoDuplicateEmails(ps: seq<Participant>)
  {
    forall i, j :: 0 <= i < j < |ps| ==> ps[i].email != ps[j].email
  }

  /** A capped activity holds at most its cap of participants. */
  predicate WithinCapacity(a: Activity)
  {
    a.maxParticipants != 0 ==> |a.participants| <= a.maxParticipants
  }

  predicate ActivityValid(a: Activity)
  {
    NoDuplicateEmails(a.participants) && WithinCapacity(a)
  }

  /** The store invariant every reachable state keeps. */
  predicate Valid(s: State)
  {
    forall n :: n in s ==> ActivityValid(s[n])
  }

  /** `t` differs from `s` at most in the participant list of activity `name`:
      same activities, every other activity identical, and the named activity's
      description, schedule and cap untouched. */
  predicate OnlyParticipantsChanged(s: State, t: State, name: string)
  {
    && s.Keys == t.Keys
    && name in s
    && (forall m :: m in s && m != name ==> t[m] == s[m])
    && t[name].description == s[name].description
    && t[name].schedule == s[name].schedule
    && t[name].maxParticipants == s[name].maxParticipants
  }

  lemma EmailsAppend(ps: seq<Participant>, p: Participant)
    ensures Emails(ps + [p]) == Emails(ps) + [p.email]
  {
  }

  lemma EmailsRemoveAt(ps: seq<Participant>, i: nat)
    requires i < |ps|
    ensures Emails(ps[..i] + ps[i+1..]) == Emails(ps)[..i] + Emails(ps)[i+1..]
    ensures multiset(Emails(ps)) == multiset(Emails(ps)[..i] + Emails(ps)[i+1..]) + multiset{ps[i].email}
  {
    var es := Emails(ps);
    assert es == es[..i] + [es[i]] + es[i+1..];
  }
}
