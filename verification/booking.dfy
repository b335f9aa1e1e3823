/** The public booking handler: validate the form, find or create the
    patient by phone number, re-check the slot against confirmed
    appointments, insert a confirmed appointment, and map the storage
    layer's refusal to a "slot just taken" outcome. */
module Booking {
  import opened Text
  import opened Clock
  import opened Models
  import Slots

  /** The submitted form as the handler reads it.  `medecinId` is None when
      `int(request.form.get('medecin_id'))` raises (field missing or not an
      integer); the other fields are "" when absent. */
  datatype Form = Form(
    medecinId: Option<int>,
    patientNom: string,
    patientTel: string,
    patientEmail: string,
    date: string,
    heure: string,
    motif: string)

  /** What the handler reports (as a flash message and a redirect). */
  datatype Outcome =
    | Booked          // "Rendez-vous confirmé !"
    | MissingField    // a required field is empty
    | SlotTaken       // the re-check found a confirmed appointment
    | Conflict        // the insert hit a uniqueness constraint
    | Error           // any other exception
    | ClinicNotFound  // unknown clinic slug (404)

  datatype BookResult = BookResult(outcome: Outcome, state: State)

  /** `Clinique.query.filter_by(slug=slug).first()`. */
  function FindClinic(clinics: seq<Clinic>, slug: string): (r: Option<Clinic>)
    ensures r.Some? ==> r.value in clinics && r.value.slug == slug
    ensures r.None? ==> forall c :: c in clinics ==> c.slug != slug
  {
    if |clinics| == 0 then None
    else if clinics[0].slug == slug then Some(clinics[0])
    else FindClinic(clinics[1..], slug)
  }

  /** `Patient.query.filter_by(telephone=tel).first()`: searched across
      every clinic. */
  function FindPatient(patients: seq<Patient>, tel: string): (r: Option<Patient>)
    ensures r.Some? ==> r.value in patients && r.value.telephone == tel
    ensures r.None? ==> forall p :: p in patients ==> p.telephone != tel
  {
    if |patients| == 0 then None
    else if patients[0].telephone == tel then Some(patients[0])
    else FindPatient(patients[1..], tel)
  }

  /** The patient with this phone number, or a new one tied to the booking
      clinic (committed at once, with the next id). */
  function FindOrCreatePatient(patients: seq<Patient>, nom: string, tel: string, email: string, cliniqueId: int)
    : (r: (Patient, seq<Patient>))
  {
    match FindPatient(patients, tel)
    case Some(p) => (p, patients)
    case None =>
      var p := Patient(|patients| + 1, nom, tel, if email == "" then None else Some(email), cliniqueId);
      (p, patients + [p])
  }

  /** The form as the handler reads it: name, phone, email and reason are
      stripped; date and time are taken as sent. */
  function Clean(form: Form): Form
  {
    form.(patientNom := Strip(form.patientNom), patientTel := Strip(form.patientTel),
          patientEmail := Strip(form.patientEmail), motif := Strip(form.motif))
  }

  /** The required fields of the stripped form, as `all([...])` tests them. */
  predicate FieldsPresent(medecinId: int, form: Form)
  {
    medecinId != 0 && form.patientNom != "" && form.patientTel != ""
    && form.date != "" && form.heure != ""
  }

  /** The row the handler inserts for this form. */
  function NewRow(patient: Patient, medecinId: int, clinique: Clinic, date: Date, form: Form, token: string): Row
  {
    Row(patient.id, medecinId, clinique.id, date, form.heure, form.motif, Confirme, token)
  }

  /** `reserver_rdv_public(slug)` on the state `st`, with `token` the
      freshly minted cancellation token: the clinic lookup (404), reading
      the doctor id, validation and date parsing, then Reserve. */
  function Book(st: State, slug: string, form: Form, token: string): BookResult
  {
    match FindClinic(st.clinics, slug)
    case None => BookResult(ClinicNotFound, st)
    case Some(clinique) =>
      match form.medecinId
      case None => BookResult(Error, st)
      case Some(medecinId) =>
        if !FieldsPresent(medecinId, Clean(form)) then BookResult(MissingField, st)
        else match ParseDate(form.date)
          case None => BookResult(Error, st)
          case Some(date) => Reserve(st, clinique, medecinId, date, Clean(form), token)
  }

  /** The handler past validation.  The new patient (if any) is committed
      before the re-check, so it survives every later failure.  The
      re-check query is the first to bind the doctor id, and a value that
      is not an SQLite INTEGER makes it raise (an error, not an integrity
      error). */
  function Reserve(st: State, clinique: Clinic, medecinId: int, date: Date, form: Form, token: string): BookResult
  {
    var found := FindOrCreatePatient(st.patients, form.patientNom, form.patientTel,
                                     form.patientEmail, clinique.id);
    var st1 := st.(patients := found.1);
    if !SqlInteger(medecinId) then BookResult(Error, st1)
    else if ConfirmedAt(st.rows, medecinId, date, form.heure) then BookResult(SlotTaken, st1)
    else Commit(st1, found.0, medecinId, clinique, date, form, token)
  }

  /** The insert and what follows it.  The appointment is committed before
      the notification step, so an error there (the doctor lookup yields
      nothing and the patient has an email, whose message needs the
      doctor's name) is reported although the appointment stays. */
  function Commit(st: State, patient: Patient, medecinId: int, clinique: Clinic, date: Date, form: Form, token: string)
    : BookResult
  {
    match Insert(st.rows, NewRow(patient, medecinId, clinique, date, form, token))
    case None => BookResult(Conflict, st)
    case Some(rows) =>
      var st2 := st.(rows := rows);
      if Truthy(patient.email) && medecinId !in st.users then BookResult(Error, st2)
      else BookResult(Booked, st2)
  }

  /** Reserve when a confirmed appointment holds the slot: the patient
      step has happened, and nothing more. */
  lemma ReserveWhenTaken(st: State, clinique: Clinic, medecinId: int, date: Date, form: Form, token: string)
    requires SqlInteger(medecinId) && ConfirmedAt(st.rows, medecinId, date, form.heure)
    ensures Reserve(st, clinique, medecinId, date, form, token)
         == BookResult(SlotTaken, st.(patients := FindOrCreatePatient(st.patients, form.patientNom,
                         form.patientTel, form.patientEmail, clinique.id).1))
  {
  }

  /** Reserve when no confirmed appointment holds the slot: Commit, on the
      state after the patient step. */
  lemma ReserveWhenFree(st: State, clinique: Clinic, medecinId: int, date: Date, form: Form, token: string)
    requires SqlInteger(medecinId) && !ConfirmedAt(st.rows, medecinId, date, form.heure)
    ensures var found := FindOrCreatePatient(st.patients, form.patientNom, form.patientTel,
                                             form.patientEmail, clinique.id);
      Reserve(st, clinique, medecinId, date, form, token)
        == Commit(st.(patients := found.1), found.0, medecinId, clinique, date, form, token)
  {
  }

  /** Reserve when the doctor id is not an SQLite INTEGER: the patient step
      has happened, and the re-check query raises. */
  lemma ReserveWhenUnbindable(st: State, clinique: Clinic, medecinId: int, date: Date, form: Form, token: string)
    requires !SqlInteger(medecinId)
    ensures Reserve(st, clinique, medecinId, date, form, token)
         == BookResult(Error, st.(patients := FindOrCreatePatient(st.patients, form.patientNom,
                         form.patientTel, form.patientEmail, clinique.id).1))
  {
  }

  /** Commit when the new row clashes with a stored one. */
  lemma CommitRefused(st: State, patient: Patient, medecinId: int, clinique: Clinic, date: Date, form: Form, token: string)
    requires Clashes(st.rows, NewRow(patient, medecinId, clinique, date, form, token))
    ensures Commit(st, patient, medecinId, clinique, date, form, token) == BookResult(Conflict, st)
  {
  }

  /** Commit when the new row is stored: the outcome depends only on the
      notification step. */
  lemma CommitInserted(st: State, patient: Patient, medecinId: int, clinique: Clinic, date: Date, form: Form, token: string)
    requires !Clashes(st.rows, NewRow(patient, medecinId, clinique, date, form, token))
    ensures var st2 := st.(rows := st.rows + [NewRow(patient, medecinId, clinique, date, form, token)]);
      Commit(st, patient, medecinId, clinique, date, form, token)
        == BookResult(if Truthy(patient.email) && medecinId !in st.users then Error else Booked, st2)
  {
  }

  /** Past validation, Book is Reserve. */
  lemma BookValidated(st: State, slug: string, form: Form, token: string)
    requires FindClinic(st.clinics, slug).Some? && form.medecinId.Some?
    requires FieldsPresent(form.medecinId.value, Clean(form)) && ParseDate(form.date).Some?
    ensures Book(st, slug, form, token)
         == Reserve(st, FindClinic(st.clinics, slug).value, form.medecinId.value, ParseDate(form.date).value, Clean(form), token)
  {
  }

  /** A form rejected before Reserve leaves the state as it was; anything
      else is Reserve's doing. */
  lemma BookStages(st: State, slug: string, form: Form, token: string)
    ensures var r := Book(st, slug, form, token);
      || r.state == st
      || (&& FindClinic(st.clinics, slug).Some? && form.medecinId.Some?
          && FieldsPresent(form.medecinId.value, Clean(form)) && ParseDate(form.date).Some?
          && r == Reserve(st, FindClinic(st.clinics, slug).value, form.medecinId.value,
                          ParseDate(form.date).value, Clean(form), token))
    ensures var r := Book(st, slug, form, token);
      (r.outcome == ClinicNotFound || r.outcome == MissingField) ==> r.state == st
  {
    match FindClinic(st.clinics, slug)
    case None =>
    case Some(clinique) =>
      match form.medecinId
      case None =>
      case Some(m) =>
        if FieldsPresent(m, Clean(form)) {
          match ParseDate(form.date)
          case None =>
          case Some(date) => ReserveOutcomes(st, clinique, m, date, Clean(form), token);
        }
  }

  // ---------------------------------------------------------------------
  // Properties of the handler.

  /** The handler gets past validation only when the clinic exists, the
      doctor id is a non-zero integer, name and phone hold something other
      than white space, and date and time are non-empty; a rejected form
      changes nothing. */
  lemma MissingFieldIff(st: State, slug: string, form: Form, token: string)
    ensures var r := Book(st, slug, form, token);
      && (r.outcome == MissingField <==>
            FindClinic(st.clinics, slug).Some? && form.medecinId.Some?
            && (form.medecinId.value == 0 || Blank(form.patientNom) || Blank(form.patientTel)
                || form.date == "" || form.heure == ""))
      && (r.outcome == MissingField ==> r.state == st)
  {
    StripEmptyIff(form.patientNom);
    StripEmptyIff(form.patientTel);
    var r := Book(st, slug, form, token);
    if FindClinic(st.clinics, slug).Some? && form.medecinId.Some? && FieldsPresent(form.medecinId.value, Clean(form))
       && ParseDate(form.date).Some? {
      BookValidated(st, slug, form, token);
      ReserveOutcomes(st, FindClinic(st.clinics, slug).value, form.medecinId.value, ParseDate(form.date).value, Clean(form), token);
    }
  }

  /** What Commit can do: refuse the insert, exactly on a clash, and change
      nothing; otherwise append exactly the new row and report Error
      exactly when the notification step fails, Booked when it does not. */
  lemma CommitOutcomes(st: State, patient: Patient, medecinId: int, clinique: Clinic, date: Date, form: Form, token: string)
    ensures var r := Commit(st, patient, medecinId, clinique, date, form, token);
      && r.state.clinics == st.clinics && r.state.users == st.users
      && r.state.availabilities == st.availabilities && r.state.patients == st.patients
      && (r.outcome == Conflict || r.outcome == Error || r.outcome == Booked)
      && (r.outcome == Conflict ==> r.state.rows == st.rows)
      && (r.outcome != Conflict ==> r.state.rows == st.rows + [NewRow(patient, medecinId, clinique, date, form, token)])
      && (r.outcome != Conflict ==> Insert(st.rows, NewRow(patient, medecinId, clinique, date, form, token)).Some?)
      && (r.outcome == Conflict <==> Clashes(st.rows, NewRow(patient, medecinId, clinique, date, form, token)))
      && (r.outcome == Error <==>
            !Clashes(st.rows, NewRow(patient, medecinId, clinique, date, form, token))
            && Truthy(patient.email) && medecinId !in st.users)
  {
    match Insert(st.rows, NewRow(patient, medecinId, clinique, date, form, token))
    case None =>
    case Some(rows) =>
  }

  /** What Reserve can do to the state: the patients grow by at most the
      new patient, the appointment table by at most the new row, which is
      exactly NewRow for the patient holding the phone number, and only on
      Booked or on the late Error; nothing else changes.  A doctor id that
      is not an SQLite INTEGER ends in Error with the table unchanged;
      otherwise, past the re-check, the outcome is decided by the insert
      and the notification step alone. */
  lemma ReserveOutcomes(st: State, clinique: Clinic, medecinId: int, date: Date, form: Form, token: string)
    ensures var r := Reserve(st, clinique, medecinId, date, form, token);
      var found := FindOrCreatePatient(st.patients, form.patientNom, form.patientTel,
                                       form.patientEmail, clinique.id);
      && r.outcome != ClinicNotFound && r.outcome != MissingField
      && r.state.clinics == st.clinics && r.state.users == st.users
      && r.state.availabilities == st.availabilities
      && r.state.patients == found.1
      && (!SqlInteger(medecinId) ==> r.outcome == Error && r.state.rows == st.rows)
      && (r.outcome == SlotTaken || r.outcome == Conflict ==> r.state.rows == st.rows)
      && (r.outcome == Booked || (r.outcome == Error && SqlInteger(medecinId)) ==>
            r.state.rows == st.rows + [NewRow(found.0, medecinId, clinique, date, form, token)]
            && Insert(st.rows, NewRow(found.0, medecinId, clinique, date, form, token)).Some?)
      && (r.outcome == SlotTaken <==> SqlInteger(medecinId) && ConfirmedAt(st.rows, medecinId, date, form.heure))
      && (r.outcome == Conflict <==>
            SqlInteger(medecinId) && !ConfirmedAt(st.rows, medecinId, date, form.heure)
            && Clashes(st.rows, NewRow(found.0, medecinId, clinique, date, form, token)))
      && (r.outcome == Error <==>
            || !SqlInteger(medecinId)
            || (&& !ConfirmedAt(st.rows, medecinId, date, form.heure)
                && !Clashes(st.rows, NewRow(found.0, medecinId, clinique, date, form, token))
                && Truthy(found.0.email) && medecinId !in st.users))
  {
    var found := FindOrCreatePatient(st.patients, form.patientNom, form.patientTel,
                                     form.patientEmail, clinique.id);
    var st1 := st.(patients := found.1);
    if SqlInteger(medecinId) && !ConfirmedAt(st.rows, medecinId, date, form.heure) {
      CommitOutcomes(st1, found.0, medecinId, clinique, date, form, token);
    }
  }

  /** Find-or-create: the patient holds the phone number and is in the new
      list; either the list is unchanged and the patient was there already,
      or the list gained exactly this patient, tied to the booking clinic,
      with the next id. */
  lemma FindOrCreateShape(patients: seq<Patient>, nom: string, tel: string, email: string, cliniqueId: int)
    ensures var (p, ps) := FindOrCreatePatient(patients, nom, tel, email, cliniqueId);
      && p.telephone == tel && p in ps
      && ((ps == patients && p in patients)
          || (FindPatient(patients, tel).None? && ps == patients + [p] && p.id == |patients| + 1
              && p.cliniqueId == cliniqueId && p.nom == nom
              && p.email == (if email == "" then None else Some(email))))
  {
  }

  /** Whatever the outcome, the handler only adds: the clinics, users and
      availability rows stay, at most one patient is appended, at most one
      appointment is appended, and the appointment table changes only on
      Booked or on the late Error. */
  lemma BookFrame(st: State, slug: string, form: Form, token: string)
    ensures var r := Book(st, slug, form, token);
      && r.state.clinics == st.clinics && r.state.users == st.users
      && r.state.availabilities == st.availabilities
      && (r.state.patients == st.patients
          || (|r.state.patients| == |st.patients| + 1 && r.state.patients[..|st.patients|] == st.patients))
      && (r.state.rows == st.rows
          || ((r.outcome == Booked || r.outcome == Error) && |r.state.rows| == |st.rows| + 1
              && r.state.rows[..|st.rows|] == st.rows))
      && (r.outcome == SlotTaken || r.outcome == Conflict ==> r.state.rows == st.rows)
  {
    var r := Book(st, slug, form, token);
    BookStages(st, slug, form, token);
    if r.state != st {
      var clinique := FindClinic(st.clinics, slug).value;
      var f := Clean(form);
      ReserveOutcomes(st, clinique, form.medecinId.value, ParseDate(form.date).value, f, token);
      FindOrCreateShape(st.patients, f.patientNom, f.patientTel, f.patientEmail, clinique.id);
      if r.state.patients != st.patients {
        assert r.state.patients[..|st.patients|] == st.patients;
      }
      if r.state.rows != st.rows {
        assert r.state.rows[..|st.rows|] == st.rows;
      }
    }
  }

  /** Validity of the database (unique slots, unique tokens, patient ids in
      order, every appointment naming a stored patient) survives every
      booking attempt. */
  lemma BookKeepsValid(st: State, slug: string, form: Form, token: string)
    requires ValidState(st)
    ensures ValidState(Book(st, slug, form, token).state)
  {
    BookStages(st, slug, form, token);
    if Book(st, slug, form, token).state != st {
      ReserveKeepsValid(st, FindClinic(st.clinics, slug).value, form.medecinId.value,
                        ParseDate(form.date).value, Clean(form), token);
    }
  }

  lemma ReserveKeepsValid(st: State, clinique: Clinic, medecinId: int, date: Date, form: Form, token: string)
    requires ValidState(st)
    ensures ValidState(Reserve(st, clinique, medecinId, date, form, token).state)
  {
    var r := Reserve(st, clinique, medecinId, date, form, token);
    var nom, tel, email := form.patientNom, form.patientTel, form.patientEmail;
    var found := FindOrCreatePatient(st.patients, nom, tel, email, clinique.id);
    FindOrCreateKeepsIds(st.patients, nom, tel, email, clinique.id);
    ReserveOutcomes(st, clinique, medecinId, date, form, token);
    var row := NewRow(found.0, medecinId, clinique, date, form, token);
    GrowthKeepsValid(st, r.state, row, r.state.rows != st.rows);
  }

  /** A state that gained patients in id order and at most one insertable
      row naming one of them is still valid. */
  lemma GrowthKeepsValid(st: State, st2: State, row: Row, added: bool)
    requires ValidState(st) && PatientIds(st2.patients) && |st.patients| <= |st2.patients|
    requires !added ==> st2.rows == st.rows
    requires added ==> st2.rows == st.rows + [row] && Insert(st.rows, row).Some?
    requires 1 <= row.patientId <= |st2.patients|
    ensures ValidState(st2)
  {
    if added {
      InsertKeepsInvariant(st.rows, row);
    }
    forall i | 0 <= i < |st2.rows| ensures 1 <= st2.rows[i].patientId <= |st2.patients| {
      if i < |st.rows| {
        assert st2.rows[i] == st.rows[i];
      }
    }
  }

  /** Find-or-create keeps patient ids in order and returns a patient whose
      id is one of them. */
  lemma FindOrCreateKeepsIds(patients: seq<Patient>, nom: string, tel: string, email: string, cliniqueId: int)
    requires PatientIds(patients)
    ensures var (p, ps) := FindOrCreatePatient(patients, nom, tel, email, cliniqueId);
      PatientIds(ps) && |patients| <= |ps| && 1 <= p.id <= |ps|
  {
    var (p, ps) := FindOrCreatePatient(patients, nom, tel, email, cliniqueId);
    FindOrCreateShape(patients, nom, tel, email, cliniqueId);
    forall i | 0 <= i < |ps| ensures ps[i].id == i + 1 {
      if i < |patients| {
        assert ps[i] == patients[i];
      }
    }
    var k :| 0 <= k < |ps| && ps[k] == p;
  }

  /** A successful booking appends exactly one appointment: confirmed, with
      the requested doctor, date and time, the booking clinic, the stripped
      reason and the fresh token, for a patient that holds the stripped
      phone number (an existing one from any clinic, or a new one of this
      clinic). */
  lemma BookedAppends(st: State, slug: string, form: Form, token: string)
    requires Book(st, slug, form, token).outcome == Booked
    ensures FindClinic(st.clinics, slug).Some? && form.medecinId.Some? && ParseDate(form.date).Some?
    ensures FieldsPresent(form.medecinId.value, Clean(form)) && SqlInteger(form.medecinId.value)
    ensures var r := Book(st, slug, form, token);
      var clinique := FindClinic(st.clinics, slug).value;
      && |r.state.rows| == |st.rows| + 1 && r.state.rows[..|st.rows|] == st.rows
      && var row := r.state.rows[|st.rows|];
      && row.statut == Confirme && row.medecinId == form.medecinId.value
      && row.date == ParseDate(form.date).value && row.heure == form.heure
      && row.cliniqueId == clinique.id && row.motif == Strip(form.motif)
      && row.annulationToken == token
      && exists p :: p in r.state.patients && p.id == row.patientId && p.telephone == Strip(form.patientTel)
           && (p in st.patients || p.cliniqueId == clinique.id)
  {
    var r := Book(st, slug, form, token);
    BookStages(st, slug, form, token);
    var clinique := FindClinic(st.clinics, slug).value;
    var f := Clean(form);
    ReserveOutcomes(st, clinique, form.medecinId.value, ParseDate(form.date).value, f, token);
    var found := FindOrCreatePatient(st.patients, f.patientNom, f.patientTel, f.patientEmail, clinique.id);
    FindOrCreateShape(st.patients, f.patientNom, f.patientTel, f.patientEmail, clinique.id);
    assert r.state.rows[..|st.rows|] == st.rows;
    assert r.state.rows[|st.rows|].patientId == found.0.id;
  }

  /** A well-formed booking of a slot that no appointment holds, whatever
      its status, for a doctor id the database can bind, with a token no
      appointment holds, is stored: the table
      gains exactly the new confirmed row, and the outcome is Booked unless
      the notification step fails (a patient with an email and an unknown
      doctor), in which case it is Error with the row kept. */
  lemma FreeSlotBooked(st: State, slug: string, form: Form, token: string)
    requires FindClinic(st.clinics, slug).Some? && form.medecinId.Some?
    requires FieldsPresent(form.medecinId.value, Clean(form)) && ParseDate(form.date).Some?
    requires SqlInteger(form.medecinId.value)
    requires forall i :: 0 <= i < |st.rows| ==>
      !(st.rows[i].medecinId == form.medecinId.value && st.rows[i].date == ParseDate(form.date).value
        && st.rows[i].heure == form.heure)
      && st.rows[i].annulationToken != token
    ensures var clinique, f := FindClinic(st.clinics, slug).value, Clean(form);
      var p := FindOrCreatePatient(st.patients, f.patientNom, f.patientTel, f.patientEmail, clinique.id).0;
      var r := Book(st, slug, form, token);
      && (r.outcome == Booked || r.outcome == Error)
      && r.state.rows == st.rows + [NewRow(p, form.medecinId.value, clinique, ParseDate(form.date).value, f, token)]
      && (r.outcome == Error <==> Truthy(p.email) && form.medecinId.value !in st.users)
  {
    var clinique, f := FindClinic(st.clinics, slug).value, Clean(form);
    var m, d := form.medecinId.value, ParseDate(form.date).value;
    var p := FindOrCreatePatient(st.patients, f.patientNom, f.patientTel, f.patientEmail, clinique.id).0;
    var row := NewRow(p, m, clinique, d, f, token);
    BookValidated(st, slug, form, token);
    ReserveOutcomes(st, clinique, m, d, f, token);
    assert !ConfirmedAt(st.rows, m, d, f.heure);
    assert !Clashes(st.rows, row) by {
      forall i | 0 <= i < |st.rows| ensures !SameSlot(st.rows[i], row) && st.rows[i].annulationToken != row.annulationToken {
      }
    }
  }

  /** A well-formed booking whose doctor id is not an SQLite INTEGER
      (beyond the signed 64-bit range) ends in Error once the patient step
      has run: a new patient is kept, and no appointment is stored. */
  lemma UnbindableDoctorIdRefused(st: State, slug: string, form: Form, token: string)
    requires FindClinic(st.clinics, slug).Some? && form.medecinId.Some?
    requires FieldsPresent(form.medecinId.value, Clean(form)) && ParseDate(form.date).Some?
    requires !SqlInteger(form.medecinId.value)
    ensures var clinique, f := FindClinic(st.clinics, slug).value, Clean(form);
      var r := Book(st, slug, form, token);
      && r.outcome == Error && r.state.rows == st.rows
      && r.state.patients == FindOrCreatePatient(st.patients, f.patientNom, f.patientTel, f.patientEmail, clinique.id).1
  {
    BookValidated(st, slug, form, token);
    ReserveWhenUnbindable(st, FindClinic(st.clinics, slug).value, form.medecinId.value,
                          ParseDate(form.date).value, Clean(form), token);
  }

  /** The re-check: a well-formed booking of a slot that a CONFIRMED
      appointment holds, for a doctor id the database can bind, is refused,
      and the appointment table is left as it was. */
  lemma SlotTakenIff(st: State, slug: string, form: Form, token: string)
    requires FindClinic(st.clinics, slug).Some? && form.medecinId.Some?
    requires FieldsPresent(form.medecinId.value, Clean(form)) && ParseDate(form.date).Some?
    ensures var r := Book(st, slug, form, token);
      && (r.outcome == SlotTaken <==>
            SqlInteger(form.medecinId.value)
            && ConfirmedAt(st.rows, form.medecinId.value, ParseDate(form.date).value, form.heure))
      && (r.outcome == SlotTaken ==> r.state.rows == st.rows)
  {
    BookValidated(st, slug, form, token);
    ReserveOutcomes(st, FindClinic(st.clinics, slug).value, form.medecinId.value, ParseDate(form.date).value, Clean(form), token);
  }

  /** The storage constraint covers every status while the re-check looks
      at confirmed appointments only: a slot held by a cancelled, finished
      or no-show appointment passes the re-check and then fails the insert,
      so the booking ends as Conflict with the appointment table unchanged. */
  lemma NonConfirmedSlotConflicts(st: State, slug: string, form: Form, token: string, i: nat)
    requires TableInvariant(st.rows)
    requires FindClinic(st.clinics, slug).Some? && form.medecinId.Some?
    requires FieldsPresent(form.medecinId.value, Clean(form)) && ParseDate(form.date).Some?
    requires SqlInteger(form.medecinId.value)
    requires i < |st.rows| && st.rows[i].statut != Confirme
    requires st.rows[i].medecinId == form.medecinId.value && st.rows[i].date == ParseDate(form.date).value
    requires st.rows[i].heure == form.heure
    ensures Book(st, slug, form, token).outcome == Conflict
    ensures Book(st, slug, form, token).state.rows == st.rows
  {
    var m, d, h := form.medecinId.value, ParseDate(form.date).value, form.heure;
    NoOtherHolder(st.rows, i);
    assert !ConfirmedAt(st.rows, m, d, h);
    var clinique := FindClinic(st.clinics, slug).value;
    BookValidated(st, slug, form, token);
    var f := Clean(form);
    var found := FindOrCreatePatient(st.patients, f.patientNom, f.patientTel, f.patientEmail, clinique.id);
    var row := NewRow(found.0, m, clinique, d, f, token);
    assert SameSlot(st.rows[i], row);
    assert Insert(st.rows, row).None?;
  }

  /** Two bookings of the same doctor, date and time: once the first has
      succeeded, a well-formed second one is refused by the re-check, so
      the table never holds two appointments for that slot. */
  lemma SecondBookingRefused(st: State, slug: string, form: Form, token: string,
                             slug2: string, form2: Form, token2: string)
    requires Book(st, slug, form, token).outcome == Booked
    requires FindClinic(st.clinics, slug2).Some? && form2.medecinId == form.medecinId
    requires FieldsPresent(form2.medecinId.value, Clean(form2))
    requires ParseDate(form2.date) == ParseDate(form.date) && form2.heure == form.heure
    ensures Book(Book(st, slug, form, token).state, slug2, form2, token2).outcome == SlotTaken
  {
    BookedAppends(st, slug, form, token);
    BookFrame(st, slug, form, token);
    var st1 := Book(st, slug, form, token).state;
    var k := |st.rows|;
    assert st1.rows[k].statut == Confirme;
    assert ConfirmedAt(st1.rows, form.medecinId.value, ParseDate(form.date).value, form.heure);
    SlotTakenIff(st1, slug2, form2, token2);
  }

  /** After a successful booking the booked time is no longer offered for
      that doctor and date. */
  lemma BookedTimeNotListed(st: State, slug: string, form: Form, token: string, dateStr: string)
    requires Book(st, slug, form, token).outcome == Booked
    requires ParseDate(dateStr) == ParseDate(form.date)
    ensures var listing := Slots.Disponibilites(Book(st, slug, form, token).state, form.medecinId.value, dateStr);
      listing.Creneaux? ==> form.heure !in listing.slots
  {
    BookedAppends(st, slug, form, token);
    var st1 := Book(st, slug, form, token).state;
    var m, d := form.medecinId.value, ParseDate(form.date).value;
    var k := |st.rows|;
    assert st1.rows[k].heure == form.heure;
    assert ConfirmedAt(st1.rows, m, d, form.heure);
    var taken := Slots.TakenHours(st1.rows, m, d);
    assert form.heure in taken;
    var listing := Slots.Disponibilites(st1, m, dateStr);
    if listing.Creneaux? && m in st1.users {
      match Slots.FirstAvailability(st1.availabilities, m, d)
      case None =>
      case Some(dispo) =>
        match (ParseTime(dispo.heureDebut), ParseTime(dispo.heureFin))
        case (Some(debut), Some(fin)) =>
          Slots.WalkAvoidsTaken(debut, fin, Slots.EffectiveDuree(dispo.dureeRdv), taken, form.heure);
        case _ =>
    }
  }
}
