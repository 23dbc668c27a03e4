/** The two guarded transitions of the registry: signing a student up for an
    activity and unregistering them. Each returns the new store on success; on an
    error the request's transaction is abandoned, so the caller keeps the old store. */
module Registration {
  import opened Results
  import opened Store

  /** Sign `email` up for activity `name`. The guards run in the source's order:
      the activity must exist, the email must not be registered yet, and a capped
      activity must not be full; only then is a participant row added. */
  function SignUp(s: State, name: string, email: string): (r: Result<State, Error>)
    ensures name !in s ==> r == Err(NotFound)
    // the duplicate check comes before the capacity check
    ensures name in s && IsRegistered(s[name], email) ==> r == Err(AlreadySignedUp)
    ensures r == Err(AtCapacity) <==>
              name in s && !IsRegistered(s[name], email)
              && s[name].maxParticipants != 0 && |s[name].participants| >= s[name].maxParticipants
    ensures name in s && s[name].maxParticipants == 0 ==> r != Err(AtCapacity)
    ensures r.Ok? <==> name in s && !IsRegistered(s[name], email) && !IsFull(s[name])
    ensures r.Ok? ==> OnlyParticipantsChanged(s, r.value, name)
    ensures r.Ok? ==>
              multiset(Emails(r.value[name].participants))
              == multiset(Emails(s[name].participants)) + multiset{email}
    ensures r.Ok? ==> |r.value[name].participants| == |s[name].participants| + 1
  {
    if name !in s then Err(NotFound)
    else
      var a := s[name];
      if IsRegistered(a, email) then Err(AlreadySignedUp)
      else if IsFull(a) then Err(AtCapacity)
      else
        EmailsAppend(a.participants, Participant(email));
        Ok(s[name := a.(participants := a.participants + [Participant(email)])])
  }

  /** The position of the first participant row carrying `email`, scanning the
      rows in order and stopping at the first match. */
  function FirstIndexOf(ps: seq<Participant>, email: string): (r: Option<nat>)
    ensures r.None? <==> forall j :: 0 <= j < |ps| ==> ps[j].email != email
    ensures r.Some? ==> r.value < |ps| && ps[r.value].email == email
    ensures r.Some? ==> forall j :: 0 <= j < r.value ==> ps[j].email != email
  {
    if |ps| == 0 then None
    else if ps[0].email == email then Some(0)
    else
      match FirstIndexOf(ps[1..], email)
      case None => None
      case Some(k) => Some(k + 1)
  }

  /** Unregister `email` from activity `name`: the activity must exist and some
      participant row must carry the email; the first such row is deleted. */
  function Unregister(s: State, name: string, email: string): (r: Result<State, Error>)
    ensures name !in s ==> r == Err(NotFound)
    ensures name in s && !IsRegistered(s[name], email) ==> r == Err(NotSignedUp)
    ensures r.Ok? <==> name in s && IsRegistered(s[name], email)
    ensures r.Ok? ==> OnlyParticipantsChanged(s, r.value, name)
    ensures r.Ok? ==>
              multiset(Emails(r.value[name].participants))
              == multiset(Emails(s[name].participants)) - multiset{email}
    ensures r.Ok? ==> |r.value[name].participants| + 1 == |s[name].participants|
  {
    if name !in s then Err(NotFound)
    else
      var a := s[name];
      match FirstIndexOf(a.participants, email)
      case None => Err(NotSignedUp)
      case Some(i) =>
        EmailsRemoveAt(a.participants, i);
        Ok(s[name := a.(participants := a.participants[..i] + a.participants[i+1..])])
  }

  /** Removing a row keeps the remaining rows free of duplicate emails. */
  lemma NoDuplicatesAfterRemove(ps: seq<Participant>, i: nat)
    requires i < |ps| && NoDuplicateEmails(ps)
    ensures NoDuplicateEmails(ps[..i] + ps[i+1..])
    ensures ps[i].email !in Emails(ps[..i] + ps[i+1..])
  {
    var qs := ps[..i] + ps[i+1..];
    forall a, b | 0 <= a < b < |qs|
      ensures qs[a].email != qs[b].email
    {
      var a' := if a < i then a else a + 1;
      var b' := if b < i then b else b + 1;
      assert qs[a] == ps[a'] && qs[b] == ps[b'];
    }
    forall k | 0 <= k < |qs|
      ensures qs[k].email != ps[i].email
    {
      var k' := if k < i then k else k + 1;
      assert qs[k] == ps[k'];
    }
  }

  /** A successful signup keeps the store invariant. */
  lemma SignUpPreservesValid(s: State, name: string, email: string)
    requires Valid(s)
    requires SignUp(s, name, email).Ok?
    ensures Valid(SignUp(s, name, email).value)
  {
    var t := SignUp(s, name, email).value;
    var ps := s[name].participants;
    var qs := t[name].participants;
    assert qs == ps + [Participant(email)];
    forall i, j | 0 <= i < j < |qs|
      ensures qs[i].email != qs[j].email
    {
      if j == |ps| {
        assert Emails(ps)[i] == ps[i].email;
      }
    }
  }

  /** A successful unregister keeps the store invariant, and afterwards the email
      is no longer registered for that activity. */
  lemma UnregisterPreservesValid(s: State, name: string, email: string)
    requires Valid(s)
    requires Unregister(s, name, email).Ok?
    ensures Valid(Unregister(s, name, email).value)
    ensures !IsRegistered(Unregister(s, name, email).value[name], email)
  {
    var ps := s[name].participants;
    var i := FirstIndexOf(ps, email).value;
    NoDuplicatesAfterRemove(ps, i);
  }

  /** A successful signup followed by unregistering the same email from the same
      activity gives back exactly the store the signup started from. */
  lemma SignUpThenUnregister(s: State, name: string, email: string)
    requires SignUp(s, name, email).Ok?
    ensures Unregister(SignUp(s, name, email).value, name, email) == Ok(s)
  {
    var t := SignUp(s, name, email).value;
    var ps := s[name].participants;
    assert t[name].participants == ps + [Participant(email)];
    var qs := ps + [Participant(email)];
    var k := FirstIndexOf(qs, email);
    assert qs[|ps|].email == email;
    assert k.value == |ps|;
    assert qs[..|ps|] + qs[|ps|+1..] == ps;
    var a := s[name];
    assert t == s[name := a.(participants := qs)];
    assert t[name].(participants := ps) == a;
    assert t[name := a] == s;
    assert Unregister(t, name, email) == Ok(t[name := t[name].(participants := qs[..|ps|] + qs[|ps|+1..])]);
  }

  /** In a valid store, unregistering a registered email and signing it up again
      succeeds and restores the activity's participant emails. */
  lemma UnregisterThenSignUp(s: State, name: string, email: string)
    requires Valid(s)
    requires Unregister(s, name, email).Ok?
    ensures SignUp(Unregister(s, name, email).value, name, email).Ok?
    ensures multiset(Emails(SignUp(Unregister(s, name, email).value, name, email).value[name].participants))
            == multiset(Emails(s[name].participants))
  {
    UnregisterPreservesValid(s, name, email);
  }

  /** Signing the same email up twice: the second request reports the duplicate. */
  lemma SignUpTwice(s: State, name: string, email: string)
    requires SignUp(s, name, email).Ok?
    ensures SignUp(SignUp(s, name, email).value, name, email) == Err(AlreadySignedUp)
  {
    var ps := s[name].participants;
    assert SignUp(s, name, email).value[name].participants[|ps|].email == email;
  }
}
