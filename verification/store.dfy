/** The database as the public routes change it: tables held by one
    object, appointments as objects whose status is updated in place, and
    the three routes that read or write them, each proved against the
    functional description of the route. */
module Store {
  import opened Text
  import opened Clock
  import opened Models
  import Slots
  import Booking
  import Cancellation

  /** The rows of a list of appointment objects, in order. */
  function RowsOf(s: seq<Appointment>): (r: seq<Row>)
    reads s
    ensures |r| == |s|
    ensures forall i :: 0 <= i < |s| ==> r[i] == s[i].Snapshot()
  {
    if |s| == 0 then [] else RowsOf(s[..|s| - 1]) + [s[|s| - 1].Snapshot()]
  }

  class Database {
    var clinics: seq<Clinic>
    var users: set<int>
    var patients: seq<Patient>
    var availabilities: seq<Availability>
    var appointments: seq<Appointment>

    /** The tables as values. */
    function State(): State
      reads this, appointments
    {
      Models.State(clinics, users, patients, availabilities, RowsOf(appointments))
    }

    /** The storage constraints hold and every appointment names a stored
        patient; with unique tokens, no appointment object is listed twice. */
    ghost predicate Valid()
      reads this, appointments
    {
      ValidState(State())
    }

    constructor (clinics: seq<Clinic>, users: set<int>, availabilities: seq<Availability>)
      ensures State() == Models.State(clinics, users, [], availabilities, [])
      ensures Valid()
    {
      this.clinics := clinics;
      this.users := users;
      this.availabilities := availabilities;
      patients := [];
      appointments := [];
    }

    /** `get_disponibilites_public(medecin_id, date)`: parse the date, check
        the doctor, read the first availability row and the confirmed
        times, then walk the window.  Changes nothing. */
    method GetDisponibilites(medecinId: int, date: string) returns (r: Slots.Listing)
      ensures r == Slots.Disponibilites(State(), medecinId, date)
    {
      var d := ParseDate(date);
      if d.None? {
        return Slots.ListingError;
      }
      if !SqlInteger(medecinId) || medecinId !in users {
        return Slots.ListingError;
      }
      var dispos := Slots.FirstAvailability(availabilities, medecinId, d.value);
      var heuresPris := Slots.TakenHours(RowsOf(appointments), medecinId, d.value);
      if dispos.None? {
        return Slots.Creneaux([]);
      }
      var debut := ParseTime(dispos.value.heureDebut);
      var fin := ParseTime(dispos.value.heureFin);
      if debut.None? || fin.None? {
        return Slots.ListingError;
      }
      var duree := Slots.EffectiveDuree(dispos.value.dureeRdv);
      var creneaux := Slots.GenerateSlots(debut.value, fin.value, duree, heuresPris);
      if creneaux.None? {
        return Slots.ListingError;
      }
      return Slots.Creneaux(creneaux.value);
    }

    /** `reserver_rdv_public(slug)` with `token` as the new appointment's
        cancellation token: the outcome and the new tables are those of
        Booking.Book, the database stays valid, and the only new
        appointment object is a fresh one. */
    method ReserverRdvPublic(slug: string, form: Booking.Form, token: string) returns (outcome: Booking.Outcome)
      requires Valid()
      modifies this
      ensures Booking.BookResult(outcome, State()) == Booking.Book(old(State()), slug, form, token)
      ensures Valid()
      ensures old(appointments) <= appointments
      ensures forall i :: |old(appointments)| <= i < |appointments| ==> fresh(appointments[i])
    {
      ghost var st := State();
      Booking.BookKeepsValid(st, slug, form, token);
      var c := Booking.FindClinic(clinics, slug);
      if c.None? {
        return Booking.ClinicNotFound;
      }
      if form.medecinId.None? {
        return Booking.Error;
      }
      var f := Booking.Clean(form);
      if !Booking.FieldsPresent(form.medecinId.value, f) {
        return Booking.MissingField;
      }
      var d := ParseDate(form.date);
      if d.None? {
        return Booking.Error;
      }
      Booking.BookValidated(st, slug, form, token);
      outcome := Reserve(c.value, form.medecinId.value, d.value, f, token);
    }

    /** The handler past validation, on the stripped form, as
        Booking.Reserve: find or create the patient (committed at once),
        refuse a doctor id the database cannot bind, re-check, then Commit.  A stage of ReserverRdvPublic only, which
        keeps the database valid through Booking.BookKeepsValid. */
    method Reserve(clinique: Clinic, medecinId: int, date: Date, form: Booking.Form, token: string)
      returns (outcome: Booking.Outcome)
      modifies this
      ensures Booking.BookResult(outcome, State())
           == Booking.Reserve(old(State()), clinique, medecinId, date, form, token)
      ensures old(appointments) <= appointments
      ensures forall i :: |old(appointments)| <= i < |appointments| ==> fresh(appointments[i])
    {
      ghost var st := State();
      var rows := RowsOf(appointments);
      var found := Booking.FindOrCreatePatient(patients, form.patientNom, form.patientTel,
                                               form.patientEmail, clinique.id);
      patients := found.1;
      assert State() == st.(patients := found.1);
      if !SqlInteger(medecinId) {
        Booking.ReserveWhenUnbindable(st, clinique, medecinId, date, form, token);
        return Booking.Error;
      }
      if ConfirmedAt(rows, medecinId, date, form.heure) {
        Booking.ReserveWhenTaken(st, clinique, medecinId, date, form, token);
        return Booking.SlotTaken;
      }
      Booking.ReserveWhenFree(st, clinique, medecinId, date, form, token);
      outcome := Commit(found.0, medecinId, clinique, date, form, token);
    }

    /** The insert and the notification step, as Booking.Commit: a clash is
        refused and nothing is added; otherwise a fresh confirmed
        appointment is appended and stays even when the notification step
        fails.  A stage of Reserve only. */
    method Commit(patient: Patient, medecinId: int, clinique: Clinic, date: Date, form: Booking.Form, token: string)
      returns (outcome: Booking.Outcome)
      modifies this
      ensures Booking.BookResult(outcome, State())
           == Booking.Commit(old(State()), patient, medecinId, clinique, date, form, token)
      ensures old(appointments) <= appointments
      ensures forall i :: |old(appointments)| <= i < |appointments| ==> fresh(appointments[i])
    {
      ghost var st := State();
      var rows := RowsOf(appointments);
      var row := Booking.NewRow(patient, medecinId, clinique, date, form, token);
      if Clashes(rows, row) {
        Booking.CommitRefused(st, patient, medecinId, clinique, date, form, token);
        return Booking.Conflict;
      }
      Booking.CommitInserted(st, patient, medecinId, clinique, date, form, token);
      var rdv := new Appointment(row.patientId, row.medecinId, row.cliniqueId, row.date,
                                 row.heure, row.motif, row.annulationToken);
      assert rdv.Snapshot() == row;
      appointments := appointments + [rdv];
      assert RowsOf(appointments) == rows + [row];
      assert State() == st.(rows := rows + [row]);
      if Truthy(patient.email) && medecinId !in users {
        return Booking.Error;
      }
      return Booking.Booked;
    }

    /** `confirmer_annulation(token)`: the appointment object holding the
        token is cancelled in place, and the outcome and the new tables are
        those of Cancellation.ConfirmCancel; no other object changes. */
    method ConfirmerAnnulation(token: string) returns (outcome: Cancellation.CancelOutcome)
      requires Valid()
      modifies appointments
      ensures Cancellation.CancelResult(outcome, State()) == Cancellation.ConfirmCancel(old(State()), token)
      ensures Valid()
      ensures appointments == old(appointments)
    {
      ghost var st := State();
      Cancellation.ConfirmCancelKeepsValid(st, token);
      var k := FindByToken(RowsOf(appointments), token);
      if k.None? {
        return Cancellation.NotFound;
      }
      var i := k.value;
      var rdv := appointments[i];
      rdv.Annuler();
      forall j | 0 <= j < |appointments| && j != i
        ensures appointments[j].Snapshot() == st.rows[j]
      {
        assert st.rows[j].annulationToken != st.rows[i].annulationToken by {
          if j < i {} else {}
        }
      }
      assert RowsOf(appointments) == st.rows[i := st.rows[i].(statut := Annule)];
      var patient := PatientById(patients, rdv.patientId);
      if patient.None? {
        return Cancellation.CancelError;
      }
      if Truthy(patient.value.email) && rdv.medecinId !in users {
        return Cancellation.CancelError;
      }
      return Cancellation.Cancelled;
    }
  }
}
