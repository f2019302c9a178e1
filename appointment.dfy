/** The appointment helpers (`appointment.ts`): the actor of an appointment's first
    participant whose reference names a resource type. */
module Appointment {
  import opened Wrappers
  import opened JsText

  /** A `Reference`, by its `reference` text (`"Patient/123"`). */
  datatype Reference = Reference(reference: string)

  datatype Participant = Participant(actor: Option<Reference>)

  datatype Appointment = Appointment(participant: seq<Participant>)

  /** The resource type of a reference, as `parseReference` gives it: the text before
      the first `/`. */
  function ReferenceType(r: Reference): (t: string)
    ensures t == r.reference[..IndexOf(r.reference, '/')]
    ensures forall i :: 0 <= i < |t| ==> t[i] != '/'
  {
    r.reference[..IndexOf(r.reference, '/')]
  }

  /** Whether the participant has an actor of the resource type. */
  predicate Matches(p: Participant, resourceType: string) {
    p.actor.Some? && ReferenceType(p.actor.value) == resourceType
  }

  /** The index of the first matching participant, `|ps|` when none matches. */
  function ParticipantIndex(ps: seq<Participant>, resourceType: string): (k: nat)
    ensures k <= |ps|
    ensures forall j :: 0 <= j < k ==> !Matches(ps[j], resourceType)
    ensures k < |ps| ==> Matches(ps[k], resourceType)
  {
    if |ps| == 0 then 0
    else if Matches(ps[0], resourceType) then 0
    else 1 + ParticipantIndex(ps[1..], resourceType)
  }

  /** `getAppointmentParticipant(appointment, resourceType)`: participants without an
      actor are skipped; `None` when no participant has an actor of that type. */
  function GetParticipant(a: Appointment, resourceType: string): (r: Option<Reference>)
    ensures r.None? <==> forall j :: 0 <= j < |a.participant| ==> !Matches(a.participant[j], resourceType)
    ensures r.Some? ==> ReferenceType(r.value) == resourceType
                        && exists j :: 0 <= j < |a.participant| && a.participant[j].actor == r
                                       && forall i :: 0 <= i < j ==> !Matches(a.participant[i], resourceType)
  {
    var k := ParticipantIndex(a.participant, resourceType);
    if k < |a.participant| then a.participant[k].actor else None
  }

  function GetPatient(a: Appointment): (r: Option<Reference>)
    ensures r == GetParticipant(a, "Patient")
  {
    GetParticipant(a, "Patient")
  }

  function GetPractitioner(a: Appointment): (r: Option<Reference>)
    ensures r == GetParticipant(a, "Practitioner")
  {
    GetParticipant(a, "Practitioner")
  }

  /** The reference text of a resource: `type/id`. */
  function RefTo(resourceType: string, id: string): string {
    resourceType + "/" + id
  }

  /** A reference `type/id` to a type without `/` names that type. */
  lemma {:induction false} RefToType(resourceType: string, id: string)
    requires forall i :: 0 <= i < |resourceType| ==> resourceType[i] != '/'
    ensures ReferenceType(Reference(RefTo(resourceType, id))) == resourceType
  {
    var s := RefTo(resourceType, id);
    assert forall i :: 0 <= i < |resourceType| ==> s[i] == resourceType[i];
    assert s[|resourceType|] == '/';
    assert s[..|resourceType|] == resourceType;
  }

  /** The participant lookup finds the first participant whose actor has the type:
      given the position of such a participant with no match before it, that is the
      actor returned. */
  lemma {:induction false} FirstMatchFound(a: Appointment, resourceType: string, i: nat)
    requires i < |a.participant| && Matches(a.participant[i], resourceType)
    requires forall k :: 0 <= k < i ==> !Matches(a.participant[k], resourceType)
    ensures GetParticipant(a, resourceType) == a.participant[i].actor
  {
  }

  /** On any appointment whose first `Patient` actor is at `i` and first `Practitioner`
      actor is at `j`, each helper returns its own actor, and the two differ. */
  lemma {:induction false} PatientAndPractitioner(a: Appointment, i: nat, j: nat, patientId: string,
                                                  practitionerId: string)
    requires i < |a.participant| && a.participant[i].actor == Some(Reference(RefTo("Patient", patientId)))
    requires j < |a.participant| && a.participant[j].actor == Some(Reference(RefTo("Practitioner", practitionerId)))
    requires forall k :: 0 <= k < i ==> !Matches(a.participant[k], "Patient")
    requires forall k :: 0 <= k < j ==> !Matches(a.participant[k], "Practitioner")
    ensures GetPatient(a) == Some(Reference(RefTo("Patient", patientId)))
    ensures GetPractitioner(a) == Some(Reference(RefTo("Practitioner", practitionerId)))
    ensures GetPatient(a) != GetPractitioner(a)
  {
    RefToType("Patient", patientId);
    RefToType("Practitioner", practitionerId);
    FirstMatchFound(a, "Patient", i);
    FirstMatchFound(a, "Practitioner", j);
  }
}
